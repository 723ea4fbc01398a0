/**
 The row fold of `StockData.fetch`: every row read from the store is filed
 under its ticker and its decoded date, and a row that meets an existing
 (ticker, date) entry is merged into it.
 */
module Aggregation {
  import opened JavaInt
  import opened StockDates

  /** One row of the store: `papername`, `date` (yyyymmdd), `close` and `volume`. */
  datatype Row = Row(ticker: string, date: int, close: int, volume: int)

  /** The consolidated observation for one ticker on one date. */
  datatype Transaction = Transaction(price: int, volume: int)

  /** The per-ticker series, keyed by date. */
  type Series = map<StockDate, Transaction>

  /** The result: each ticker's series. */
  type ResultMap = map<string, Series>

  function Min(a: int, b: int): int { if a <= b then a else b }
  function Max(a: int, b: int): int { if a <= b then b else a }

  /**
   The merge rule: the stored price and the incoming one are averaged with
   Java's truncating division, and the volumes are added.
   */
  function Merge(t: Transaction, price: int, volume: int): (r: Transaction)
    ensures Min(t.price, price) <= r.price <= Max(t.price, price)
    ensures -1 <= 2 * r.price - (t.price + price) <= 1
    ensures r.volume == t.volume + volume
  {
    Transaction(Div(t.price + price, 2), t.volume + volume)
  }

  /** The dates a ticker already has in a result; none when the ticker is absent. */
  function DatesOf(res: ResultMap, ticker: string): set<StockDate>
  {
    if ticker in res then res[ticker].Keys else {}
  }

  /**
   One pass of the `while (rs.next())` loop. Only the entry for the row's
   own (ticker, date) changes: it is created from the row on first sight and
   merged otherwise; every other ticker and date keeps its value.
   */
  function Step(res: ResultMap, row: Row): (r: ResultMap)
    ensures r.Keys == res.Keys + {row.ticker}
    ensures forall t :: t in res && t != row.ticker ==> r[t] == res[t]
    ensures r[row.ticker].Keys == DatesOf(res, row.ticker) + {DecodeDate(row.date)}
    ensures forall k :: k in DatesOf(res, row.ticker) && k != DecodeDate(row.date) ==> r[row.ticker][k] == res[row.ticker][k]
  {
    var key := DecodeDate(row.date);
    if row.ticker in res then
      var tree := res[row.ticker];
      var entry := if key in tree then Merge(tree[key], row.close, row.volume) else Transaction(row.close, row.volume);
      res[row.ticker := tree[key := entry]]
    else
      res[row.ticker := map[key := Transaction(row.close, row.volume)]]
  }

  /**
   The result after consuming `rows` in arrival order; the last row's ticker
   is always present (`AggregateKeys` states its keys in full).
   */
  function Aggregate(rows: seq<Row>): (r: ResultMap)
    ensures rows != [] ==> rows[|rows| - 1].ticker in r
  {
    if rows == [] then map[] else Step(Aggregate(rows[..|rows| - 1]), rows[|rows| - 1])
  }

  /** The tickers that occur in `rows`. */
  function Tickers(rows: seq<Row>): set<string>
  {
    set i | 0 <= i < |rows| :: rows[i].ticker
  }

  /** The row is one for `ticker` whose date decodes to `key`. */
  predicate Matches(row: Row, ticker: string, key: StockDate)
  {
    row.ticker == ticker && DecodeDate(row.date) == key
  }

  /** The decoded dates of the rows for `ticker`. */
  function RowDates(rows: seq<Row>, ticker: string): set<StockDate>
  {
    set i | 0 <= i < |rows| && rows[i].ticker == ticker :: DecodeDate(rows[i].date)
  }

  /** The total volume of the rows for one (ticker, date). */
  function TotalVolume(rows: seq<Row>, ticker: string, key: StockDate): int
  {
    if rows == [] then 0
    else
      var last := rows[|rows| - 1];
      TotalVolume(rows[..|rows| - 1], ticker, key) + (if Matches(last, ticker, key) then last.volume else 0)
  }

  /** Appending a row adds its ticker to the tickers of the rows. */
  lemma TickersSnoc(init: seq<Row>, last: Row)
    ensures Tickers(init + [last]) == Tickers(init) + {last.ticker}
  {
    var rows := init + [last];
    forall t | t in Tickers(rows) ensures t in Tickers(init) + {last.ticker} {
      var i :| 0 <= i < |rows| && rows[i].ticker == t;
      if i < |init| { assert init[i] == rows[i]; }
    }
    forall t | t in Tickers(init) ensures t in Tickers(rows) {
      var i :| 0 <= i < |init| && init[i].ticker == t;
      assert rows[i] == init[i];
    }
    assert rows[|init|] == last;
  }

  /** Appending a row adds its decoded date to the dates of its own ticker only. */
  lemma RowDatesSnoc(init: seq<Row>, last: Row, t: string)
    ensures RowDates(init + [last], t) == RowDates(init, t) + (if last.ticker == t then {DecodeDate(last.date)} else {})
  {
    var rows := init + [last];
    forall k | k in RowDates(rows, t)
      ensures k in RowDates(init, t) + (if last.ticker == t then {DecodeDate(last.date)} else {})
    {
      var i :| 0 <= i < |rows| && rows[i].ticker == t && DecodeDate(rows[i].date) == k;
      if i < |init| { assert init[i] == rows[i]; }
    }
    forall k | k in RowDates(init, t) ensures k in RowDates(rows, t) {
      var i :| 0 <= i < |init| && init[i].ticker == t && DecodeDate(init[i].date) == k;
      assert rows[i] == init[i];
    }
    if last.ticker == t {
      assert rows[|init|] == last;
    }
  }

  /** The result holds exactly the tickers of the rows. */
  lemma {:induction false} AggregateTickers(rows: seq<Row>)
    ensures Aggregate(rows).Keys == Tickers(rows)
  {
    if rows != [] {
      var init, last := rows[..|rows| - 1], rows[|rows| - 1];
      assert rows == init + [last];
      AggregateTickers(init);
      TickersSnoc(init, last);
    }
  }

  /** Each ticker's series holds exactly the decoded dates of that ticker's rows. */
  lemma {:induction false} AggregateDates(rows: seq<Row>, t: string)
    ensures DatesOf(Aggregate(rows), t) == RowDates(rows, t)
  {
    if rows != [] {
      var init, last := rows[..|rows| - 1], rows[|rows| - 1];
      assert rows == init + [last];
      AggregateDates(init, t);
      RowDatesSnoc(init, last, t);
    }
  }

  /**
   The result holds exactly the tickers of the rows, each with exactly the
   decoded dates of its rows, so no series is empty; no rows give the empty
   result.
   */
  lemma AggregateKeys(rows: seq<Row>)
    ensures Aggregate(rows).Keys == Tickers(rows)
    ensures forall t :: t in Aggregate(rows) ==> Aggregate(rows)[t].Keys == RowDates(rows, t) && |Aggregate(rows)[t]| > 0
    ensures rows == [] <==> Aggregate(rows) == map[]
  {
    AggregateTickers(rows);
    forall t | t in Aggregate(rows)
      ensures Aggregate(rows)[t].Keys == RowDates(rows, t) && |Aggregate(rows)[t]| > 0
    {
      AggregateDates(rows, t);
      var i :| 0 <= i < |rows| && rows[i].ticker == t;
      assert DecodeDate(rows[i].date) in RowDates(rows, t);
    }
    if rows != [] {
      assert rows[0].ticker in Tickers(rows);
    }
  }

  /** Consuming one more row is one more step of the loop. */
  lemma AggregateSnoc(rows: seq<Row>, row: Row)
    ensures Aggregate(rows + [row]) == Step(Aggregate(rows), row)
  {
    var all := rows + [row];
    assert all[..|all| - 1] == rows;
  }

  /**
   The first row for a (ticker, date) stores exactly that row's close and
   volume, whether or not its ticker was seen before.
   */
  lemma FirstSighting(rows: seq<Row>, row: Row)
    requires DecodeDate(row.date) !in RowDates(rows, row.ticker)
    ensures row.ticker in Aggregate(rows + [row])
    ensures Aggregate(rows + [row])[row.ticker][DecodeDate(row.date)] == Transaction(row.close, row.volume)
  {
    AggregateSnoc(rows, row);
    AggregateDates(rows, row.ticker);
  }

  /**
   A row for a (ticker, date) that earlier rows already filled replaces the
   stored observation `(p0, v0)` by `((p0 + close) / 2, v0 + volume)`.
   */
  lemma Collision(rows: seq<Row>, row: Row)
    requires DecodeDate(row.date) in RowDates(rows, row.ticker)
    ensures row.ticker in Aggregate(rows) && DecodeDate(row.date) in Aggregate(rows)[row.ticker]
    ensures var t0 := Aggregate(rows)[row.ticker][DecodeDate(row.date)];
      Aggregate(rows + [row])[row.ticker][DecodeDate(row.date)] == Transaction(Div(t0.price + row.close, 2), t0.volume + row.volume)
  {
    AggregateSnoc(rows, row);
    AggregateDates(rows, row.ticker);
  }

  /** An entry the last row does not match is the entry the earlier rows left. */
  lemma Untouched(init: seq<Row>, last: Row, ticker: string, key: StockDate)
    requires ticker in Aggregate(init + [last]) && key in Aggregate(init + [last])[ticker]
    requires !Matches(last, ticker, key)
    ensures ticker in Aggregate(init) && key in Aggregate(init)[ticker]
    ensures Aggregate(init + [last])[ticker][key] == Aggregate(init)[ticker][key]
  {
    AggregateSnoc(init, last);
  }

  /** Without rows for a (ticker, date) there is no volume for it. */
  lemma {:induction false} ZeroVolume(rows: seq<Row>, ticker: string, key: StockDate)
    requires key !in RowDates(rows, ticker)
    ensures TotalVolume(rows, ticker, key) == 0
  {
    if rows != [] {
      var init, last := rows[..|rows| - 1], rows[|rows| - 1];
      assert rows == init + [last];
      RowDatesSnoc(init, last, ticker);
      ZeroVolume(init, ticker, key);
    }
  }

  /** The volume stored for a (ticker, date) is the sum of the volumes of all its rows. */
  lemma {:induction false} VolumeConserved(rows: seq<Row>, ticker: string, key: StockDate)
    requires ticker in Aggregate(rows) && key in Aggregate(rows)[ticker]
    ensures Aggregate(rows)[ticker][key].volume == TotalVolume(rows, ticker, key)
  {
    var init, last := rows[..|rows| - 1], rows[|rows| - 1];
    assert rows == init + [last];
    if !Matches(last, ticker, key) {
      Untouched(init, last, ticker, key);
      VolumeConserved(init, ticker, key);
    } else if key in RowDates(init, ticker) {
      Collision(init, last);
      VolumeConserved(init, ticker, key);
    } else {
      FirstSighting(init, last);
      ZeroVolume(init, ticker, key);
    }
  }

  /** The first row for a (ticker, date) sets its price to the row's own close. */
  lemma PriceFirst(rows: seq<Row>, ticker: string, key: StockDate)
    requires rows != [] && Matches(rows[|rows| - 1], ticker, key)
    requires key !in RowDates(rows[..|rows| - 1], ticker)
    ensures ticker in Aggregate(rows) && key in Aggregate(rows)[ticker]
    ensures Aggregate(rows)[ticker][key].price == rows[|rows| - 1].close
  {
    var init := rows[..|rows| - 1];
    AggregateDates(init, ticker);
    assert key !in DatesOf(Aggregate(init), ticker);
  }

  /** An entry present after a row that is not its first sighting was already present before it. */
  lemma StillFilled(rows: seq<Row>, ticker: string, key: StockDate)
    requires rows != [] && ticker in Aggregate(rows) && key in Aggregate(rows)[ticker]
    requires !(Matches(rows[|rows| - 1], ticker, key) && key !in RowDates(rows[..|rows| - 1], ticker))
    ensures ticker in Aggregate(rows[..|rows| - 1]) && key in Aggregate(rows[..|rows| - 1])[ticker]
  {
    var init, last := rows[..|rows| - 1], rows[|rows| - 1];
    assert rows == init + [last];
    if Matches(last, ticker, key) {
      Collision(init, last);
    } else {
      Untouched(init, last, ticker, key);
    }
  }

  /**
   One more row keeps the stored price of an entry the earlier rows filled
   between two of that entry's closes, given such closes for the earlier rows.
   */
  lemma PriceStep(rows: seq<Row>, ticker: string, key: StockDate, i: nat, j: nat)
    requires rows != []
    requires var init := rows[..|rows| - 1];
      && ticker in Aggregate(init) && key in Aggregate(init)[ticker]
      && i < |init| && Matches(init[i], ticker, key) && init[i].close <= Aggregate(init)[ticker][key].price
      && j < |init| && Matches(init[j], ticker, key) && Aggregate(init)[ticker][key].price <= init[j].close
    ensures ticker in Aggregate(rows) && key in Aggregate(rows)[ticker]
    ensures exists i' :: 0 <= i' < |rows| && Matches(rows[i'], ticker, key) && rows[i'].close <= Aggregate(rows)[ticker][key].price
    ensures exists j' :: 0 <= j' < |rows| && Matches(rows[j'], ticker, key) && Aggregate(rows)[ticker][key].price <= rows[j'].close
  {
    var init, last := rows[..|rows| - 1], rows[|rows| - 1];
    var n := |init|;
    assert rows == init + [last];
    AggregateSnoc(init, last);
    var before := Aggregate(init)[ticker][key].price;
    assert rows[i] == init[i] && rows[j] == init[j];
    if Matches(last, ticker, key) {
      AggregateDates(init, ticker);
      Collision(init, last);
      var price := Aggregate(rows)[ticker][key].price;
      if last.close <= before {
        assert rows[n].close <= price <= rows[j].close;
      } else {
        assert rows[i].close <= price <= rows[n].close;
      }
    } else {
      Untouched(init, last, ticker, key);
      assert rows[i].close <= Aggregate(rows)[ticker][key].price <= rows[j].close;
    }
  }

  /**
   The price stored for a (ticker, date) lies between the lowest and the
   highest close among that pair's rows: averaging never leaves their range.
   */
  lemma {:induction false} PriceWithinCloses(rows: seq<Row>, ticker: string, key: StockDate)
    requires ticker in Aggregate(rows) && key in Aggregate(rows)[ticker]
    ensures exists i :: 0 <= i < |rows| && Matches(rows[i], ticker, key) && rows[i].close <= Aggregate(rows)[ticker][key].price
    ensures exists j :: 0 <= j < |rows| && Matches(rows[j], ticker, key) && Aggregate(rows)[ticker][key].price <= rows[j].close
  {
    var init, n := rows[..|rows| - 1], |rows| - 1;
    if Matches(rows[n], ticker, key) && key !in RowDates(init, ticker) {
      PriceFirst(rows, ticker, key);
      assert rows[n].close <= Aggregate(rows)[ticker][key].price <= rows[n].close;
    } else {
      StillFilled(rows, ticker, key);
      PriceWithinCloses(init, ticker, key);
      var before := Aggregate(init)[ticker][key].price;
      var i :| 0 <= i < |init| && Matches(init[i], ticker, key) && init[i].close <= before;
      var j :| 0 <= j < |init| && Matches(init[j], ticker, key) && before <= init[j].close;
      PriceStep(rows, ticker, key, i, j);
    }
  }

  /** The series a result holds for a ticker; empty when the ticker is absent. */
  function SeriesOf(res: ResultMap, t: string): Series
  {
    if t in res then res[t] else map[]
  }

  /** The row's series after the row is filed into it: created or merged at the row's date. */
  function Observe(tree: Series, row: Row): Series
  {
    var key := DecodeDate(row.date);
    tree[key := if key in tree then Merge(tree[key], row.close, row.volume) else Transaction(row.close, row.volume)]
  }

  /** A loop pass replaces the row's ticker's series, present or not, by that series with the row filed in. */
  lemma StepObserves(res: ResultMap, row: Row)
    ensures Step(res, row) == res[row.ticker := Observe(SeriesOf(res, row.ticker), row)]
  {
  }

  /** Rows for different tickers touch different series, so they commute. */
  lemma DistinctTickersCommute(res: ResultMap, a: Row, b: Row)
    requires a.ticker != b.ticker
    ensures Step(Step(res, a), b) == Step(Step(res, b), a)
  {
    StepObserves(res, a);
    StepObserves(res, b);
    StepObserves(Step(res, a), b);
    StepObserves(Step(res, b), a);
    var sa, sb := Observe(SeriesOf(res, a.ticker), a), Observe(SeriesOf(res, b.ticker), b);
    assert SeriesOf(Step(res, a), b.ticker) == SeriesOf(res, b.ticker);
    assert SeriesOf(Step(res, b), a.ticker) == SeriesOf(res, a.ticker);
    assert res[a.ticker := sa][b.ticker := sb] == res[b.ticker := sb][a.ticker := sa];
  }

  /** Rows for one ticker on different dates touch different entries, so they commute. */
  lemma DistinctDatesCommute(res: ResultMap, a: Row, b: Row)
    requires a.ticker == b.ticker && DecodeDate(a.date) != DecodeDate(b.date)
    ensures Step(Step(res, a), b) == Step(Step(res, b), a)
  {
    StepObserves(res, a);
    StepObserves(res, b);
    StepObserves(Step(res, a), b);
    StepObserves(Step(res, b), a);
    ObservesCommute(SeriesOf(res, a.ticker), a, b);
  }

  /** Filing rows for two different dates into one series gives the same series in either order. */
  lemma ObservesCommute(s: Series, a: Row, b: Row)
    requires DecodeDate(a.date) != DecodeDate(b.date)
    ensures Observe(Observe(s, a), b) == Observe(Observe(s, b), a)
  {
    var ka, kb := DecodeDate(a.date), DecodeDate(b.date);
    var ea := if ka in s then Merge(s[ka], a.close, a.volume) else Transaction(a.close, a.volume);
    var eb := if kb in s then Merge(s[kb], b.close, b.volume) else Transaction(b.close, b.volume);
    assert Observe(s, a) == s[ka := ea] && Observe(s, b) == s[kb := eb];
    assert Observe(s[ka := ea], b) == s[ka := ea][kb := eb];
    assert Observe(s[kb := eb], a) == s[kb := eb][ka := ea];
    assert s[ka := ea][kb := eb] == s[kb := eb][ka := ea];
  }

  /**
   The first two rows for one (ticker, date) commute: the merge adds the two
   closes and the two volumes before anything else.
   */
  lemma FirstPairCommutes(res: ResultMap, a: Row, b: Row)
    requires Matches(b, a.ticker, DecodeDate(a.date)) && DecodeDate(a.date) !in DatesOf(res, a.ticker)
    ensures Step(Step(res, a), b) == Step(Step(res, b), a)
  {
    StepObserves(res, a);
    StepObserves(res, b);
    StepObserves(Step(res, a), b);
    StepObserves(Step(res, b), a);
    FirstPairObserves(SeriesOf(res, a.ticker), a, b);
  }

  /** Filing the first two rows for one date into a series gives the same series in either order. */
  lemma FirstPairObserves(s: Series, a: Row, b: Row)
    requires DecodeDate(a.date) == DecodeDate(b.date) && DecodeDate(a.date) !in s
    ensures Observe(Observe(s, a), b) == Observe(Observe(s, b), a)
  {
    var key := DecodeDate(a.date);
    assert a.close + b.close == b.close + a.close && a.volume + b.volume == b.volume + a.volume;
    assert Observe(Observe(s, a), b) == s[key := Transaction(Div(a.close + b.close, 2), a.volume + b.volume)];
    assert Observe(Observe(s, b), a) == s[key := Transaction(Div(b.close + a.close, 2), b.volume + a.volume)];
  }

  /**
   Two consecutive loop passes can trade places unless both rows are for a
   (ticker, date) the result already holds.
   */
  lemma StepsCommute(res: ResultMap, a: Row, b: Row)
    requires !(Matches(b, a.ticker, DecodeDate(a.date)) && DecodeDate(a.date) in DatesOf(res, a.ticker))
    ensures Step(Step(res, a), b) == Step(Step(res, b), a)
  {
    if a.ticker != b.ticker {
      DistinctTickersCommute(res, a, b);
    } else if DecodeDate(a.date) != DecodeDate(b.date) {
      DistinctDatesCommute(res, a, b);
    } else {
      FirstPairCommutes(res, a, b);
    }
  }

  /** Inputs that give the same result still do after the same further rows. */
  lemma {:induction false} SameAfter(x: seq<Row>, y: seq<Row>, more: seq<Row>)
    requires Aggregate(x) == Aggregate(y)
    ensures Aggregate(x + more) == Aggregate(y + more)
  {
    if more != [] {
      var init, last := more[..|more| - 1], more[|more| - 1];
      var xi, yi := x + init, y + init;
      assert more == init + [last];
      assert x + more == xi + [last];
      assert y + more == yi + [last];
      SameAfter(x, y, init);
      AggregateSnoc(xi, last);
      AggregateSnoc(yi, last);
    } else {
      assert x + more == x && y + more == y;
    }
  }

  /** The last two rows are the last two loop passes. */
  lemma TwoSteps(prefix: seq<Row>, a: Row, b: Row)
    ensures Aggregate(prefix + [a, b]) == Step(Step(Aggregate(prefix), a), b)
  {
    AggregateSnoc(prefix, a);
    AggregateSnoc(prefix + [a], b);
    assert prefix + [a, b] == prefix + [a] + [b];
  }

  /** The last two rows can be swapped unless both are for a (ticker, date) the earlier rows filled. */
  lemma SwapLast(prefix: seq<Row>, a: Row, b: Row)
    requires !(Matches(b, a.ticker, DecodeDate(a.date)) && DecodeDate(a.date) in RowDates(prefix, a.ticker))
    ensures Aggregate(prefix + [a, b]) == Aggregate(prefix + [b, a])
  {
    AggregateDates(prefix, a.ticker);
    StepsCommute(Aggregate(prefix), a, b);
    TwoSteps(prefix, a, b);
    TwoSteps(prefix, b, a);
  }

  /**
   Two adjacent rows anywhere in the input can be swapped without changing the
   result, unless both are for one (ticker, date) that earlier rows already
   filled: then the later arrivals are averaged in a different order.
   */
  lemma SwapAdjacent(prefix: seq<Row>, a: Row, b: Row, suffix: seq<Row>)
    requires !(Matches(b, a.ticker, DecodeDate(a.date)) && DecodeDate(a.date) in RowDates(prefix, a.ticker))
    ensures Aggregate(prefix + [a, b] + suffix) == Aggregate(prefix + [b, a] + suffix)
  {
    SwapLast(prefix, a, b);
    SameAfter(prefix + [a, b], prefix + [b, a], suffix);
  }

  /** Any two-row input gives the same result in either order. */
  lemma TwoRowsCommute(a: Row, b: Row)
    ensures Aggregate([a, b]) == Aggregate([b, a])
  {
    var none: seq<Row> := [];
    assert RowDates(none, a.ticker) == {};
    SwapLast(none, a, b);
    assert none + [a, b] == [a, b] && none + [b, a] == [b, a];
  }

  /**
   Three rows for one (ticker, date) are averaged pairwise in arrival order,
   not by their true mean, so the order matters: closes 4, 0, 0 leave 1 and
   closes 0, 0, 4 leave 2.
   */
  lemma ThreeRowsOrderMatters()
    ensures var key := DecodeDate(20140101);
      Aggregate([Row("AAA", 20140101, 4, 1), Row("AAA", 20140101, 0, 1), Row("AAA", 20140101, 0, 1)])["AAA"][key]
        == Transaction(1, 3)
    ensures var key := DecodeDate(20140101);
      Aggregate([Row("AAA", 20140101, 0, 1), Row("AAA", 20140101, 0, 1), Row("AAA", 20140101, 4, 1)])["AAA"][key]
        == Transaction(2, 3)
  {
    var r4, r0 := Row("AAA", 20140101, 4, 1), Row("AAA", 20140101, 0, 1);
    SameKeyFold(r4, r0, r0);
    SameKeyFold(r0, r0, r4);
  }

  /** A single row gives a single ticker with a single observation, taken from the row as it is. */
  lemma SingleRow(a: Row)
    ensures Aggregate([a]) == map[a.ticker := map[DecodeDate(a.date) := Transaction(a.close, a.volume)]]
  {
    AggregateSnoc([], a);
    assert [] + [a] == [a];
  }

  /** Two rows for the same (ticker, date), folded in arrival order. */
  lemma SameKeyPair(a: Row, b: Row)
    requires a.ticker == b.ticker && a.date == b.date
    ensures a.ticker in Aggregate([a, b]) && DecodeDate(a.date) in Aggregate([a, b])[a.ticker]
    ensures Aggregate([a, b])[a.ticker][DecodeDate(a.date)] == Transaction(Div(a.close + b.close, 2), a.volume + b.volume)
  {
    SingleRow(a);
    AggregateSnoc([a], b);
    assert [a] + [b] == [a, b];
  }

  /** Three rows for the same (ticker, date), folded in arrival order. */
  lemma SameKeyFold(a: Row, b: Row, c: Row)
    requires a.ticker == b.ticker == c.ticker && a.date == b.date == c.date
    ensures var key := DecodeDate(a.date);
      Aggregate([a, b, c])[a.ticker][key]
        == Transaction(Div(Div(a.close + b.close, 2) + c.close, 2), a.volume + b.volume + c.volume)
  {
    SameKeyPair(a, b);
    AggregateSnoc([a, b], c);
    assert [a, b] + [c] == [a, b, c];
  }

  /**
   Two AAA rows on 2014-01-01 with closes 100 and 200 and volumes 10 and 20,
   and one BBB row on 2014-01-02, give AAA (150, 30) and BBB (50, 5).
   */
  lemma ExampleFold()
    ensures Aggregate([Row("AAA", 20140101, 100, 10), Row("AAA", 20140101, 200, 20), Row("BBB", 20140102, 50, 5)])
      == map["AAA" := map[StockDate(2014, 1, 1) := Transaction(150, 30)],
             "BBB" := map[StockDate(2014, 1, 2) := Transaction(50, 5)]]
  {
    var a1, a2, b := Row("AAA", 20140101, 100, 10), Row("AAA", 20140101, 200, 20), Row("BBB", 20140102, 50, 5);
    var k1, k2 := StockDate(2014, 1, 1), StockDate(2014, 1, 2);
    DecodeEncode(k1);
    DecodeEncode(k2);
    assert DecodeDate(20140101) == k1 && DecodeDate(20140102) == k2 by {
      assert EncodeDate(k1) == 20140101 && EncodeDate(k2) == 20140102;
    }
    assert Merge(Transaction(100, 10), 200, 20) == Transaction(150, 30);
    var r1 := map["AAA" := map[k1 := Transaction(100, 10)]];
    var r2 := map["AAA" := map[k1 := Transaction(150, 30)]];
    SingleRow(a1);
    AggregateSnoc([a1], a2);
    assert [a1] + [a2] == [a1, a2];
    StepObserves(r1, a2);
    assert Observe(r1["AAA"], a2) == map[k1 := Transaction(150, 30)];
    assert Step(r1, a2) == r2;
    AggregateSnoc([a1, a2], b);
    assert [a1, a2] + [b] == [a1, a2, b];
    StepObserves(r2, b);
    assert SeriesOf(r2, "BBB") == map[];
    assert Observe(map[], b) == map[k2 := Transaction(50, 5)];
  }

  /** Builds the result with the loop of `fetch`, updating the result map in place. */
  method AggregateRows(rows: seq<Row>) returns (result: ResultMap)
    ensures result == Aggregate(rows)
    ensures result.Keys == Tickers(rows)
  {
    result := map[];
    var i := 0;
    while i < |rows|
      invariant 0 <= i <= |rows|
      invariant result == Aggregate(rows[..i])
    {
      var row := rows[i];
      var key := DecodeDate(row.date);
      ghost var before := result;
      if row.ticker in result {
        var tree := result[row.ticker];
        var price, volume := row.close, row.volume;
        if key in tree {
          price := Div(tree[key].price + price, 2);
          volume := volume + tree[key].volume;
        }
        assert Transaction(price, volume) == if key in tree then Merge(tree[key], row.close, row.volume) else Transaction(row.close, row.volume);
        tree := tree[key := Transaction(price, volume)];
        result := result[row.ticker := tree];
      } else {
        var tree: Series := map[];
        tree := tree[key := Transaction(row.close, row.volume)];
        result := result[row.ticker := tree];
      }
      assert result == Step(before, row);
      assert rows[..i + 1][..i] == rows[..i];
      i := i + 1;
    }
    assert rows[..|rows|] == rows;
    AggregateKeys(rows);
  }
}
