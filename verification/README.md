# StockData: query building and row aggregation

This project models the core of `StockData.fetch` in the ITK-Stock
repository. `fetch` retrieves daily stock transactions for some tickers over
an inclusive date range and consolidates them per ticker and per date. It
has three parts:

- **Query builder.** It prepares
  `select papername, date, close, volume from StockData where date between ? and ?`.
  When tickers are given it appends `and papername in (?, ?, …)` with one
  placeholder per ticker. The from-date key is bound at position 1, the
  to-date key at position 2, and ticker `i` at position `i + 3`.
- **Date keys.** A date is stored as the integer `year*10000 + month*100 + day`.
  A row's key is decoded with Java's truncating `/` and `%`.
- **Row aggregator.** It folds the returned rows into a map from ticker to a
  map from date to `(price, volume)`. The first row for a (ticker, date) is
  stored as it is. Each later row for that pair replaces the stored
  `(p0, v0)` by `((p0 + close) / 2, v0 + volume)`.

The six `fetchData` overloads delegate to `fetch`. A single-date overload
is the range call with `from == to`, and a single-ticker overload uses a
one-element ticker array.

Modules, one per concern:

- `JavaInt` (`java_int.dfy`): Java's truncating division and remainder.
- `StockDates` (`stock_date.dfy`): `StockDate`, its integer key, decoding, and the date order.
- `Query` (`query.dfy`): the SQL text, the placeholder list loop and the parameter binding loop.
- `Aggregation` (`aggregate.dfy`): rows, observations, the merge rule, the fold as a specification function, and the loop that updates the result map.
- `StockData` (`stock_data.dfy`): `fetch`, the six overloads, and what the result says about the request.
- `Wrappers` (`wrappers.dfy`): `Option`. `None` stands for a null ticker array.

The store is not modelled. The rows it returns are a `seq<Row>` parameter,
in arrival order. A prepared statement is modelled by its text and the map
from placeholder position to bound value that the `setInt`/`setString`
calls build.

All files are verified together:

```
dafny verify wrappers.dfy java_int.dfy stock_date.dfy query.dfy aggregate.dfy stock_data.dfy
```

Notes on the arithmetic and the inputs:

- The merge divides with Java's `/`, which truncates toward zero. This is not a floor; the two differ when the price sum is negative.
- Two adjacent rows can be swapped anywhere in the input without changing the result unless both are for one (ticker, date) that earlier rows already filled (`SwapAdjacent`): rows for different entries touch different entries, and the first two rows for an entry are merged by adding their prices before dividing. In particular a two-row input gives the same result in either order (`TwoRowsCommute`). From the third row for one (ticker, date) on, order matters (`ThreeRowsOrderMatters`).
- Tickers are an array, not a set. They keep their order and duplicates, and each element gets its own placeholder.

## Model

| member | source | states |
|---|---|---|
| JavaInt.Div | src/hu/ppke/itk/itkStock/stockdata/StockData.java:113 | Java `/` by a positive divisor: the quotient rounded toward zero. For non-negative dividends it equals Euclidean division. |
| JavaInt.Mod | src/hu/ppke/itk/itkStock/stockdata/StockData.java:113 | Java `%`: `a == b*Div(a,b) + r`, with the remainder carrying the sign of `a` and smaller than `b` in magnitude. |
| StockDates.EncodeDate | src/hu/ppke/itk/itkStock/stockdata/StockData.java:96-97 | The key `y*10000 + m*100 + d` bound for a date. It is non-negative for in-range dates. |
| StockDates.DecodeDate | src/hu/ppke/itk/itkStock/stockdata/StockData.java:113 | The date built from a row's key with truncating `/` and `%`. Any non-negative key decodes to an in-range date. |
| StockDates.DecodeEncode | src/hu/ppke/itk/itkStock/stockdata/StockData.java:96-97 | Round trip: decoding the key of a date with `y >= 0` and `0 <= m, d < 100` gives back `(y, m, d)`. |
| StockDates.EncodeDecode | src/hu/ppke/itk/itkStock/stockdata/StockData.java:113 | Every integer key, negative ones included, is re-encoded exactly from its decoded date. |
| StockDates.EncodeMonotone | src/hu/ppke/itk/itkStock/stockdata/StockData.java:87 | On in-range dates the keys are ordered like the dates (year, then month, then day), and equal keys mean equal dates. So `between` on keys is a date range. |
| Query.Parameters | src/hu/ppke/itk/itkStock/stockdata/StockData.java:94-97 | Bound values in position order: from-key at position 1, to-key at position 2, then ticker `i` at position `i + 3`. |
| Query.Bindings | src/hu/ppke/itk/itkStock/stockdata/StockData.java:94-97 | Bound values map to placeholder positions: value `i` at position `i + 1`, and no position outside `1..n`. |
| Query.BoundPositions | src/hu/ppke/itk/itkStock/stockdata/StockData.java:94-97 | A request binds exactly positions `1..n+2`: from-key at 1, to-key at 2, ticker `i` at `i + 3`. |
| Query.OneTickerBindings | src/hu/ppke/itk/itkStock/stockdata/StockData.java:94-97 | A one-ticker request binds exactly from-key at 1, to-key at 2 and the ticker at 3. |
| Query.NoTickerBindings | src/hu/ppke/itk/itkStock/stockdata/StockData.java:96-97 | A request without tickers binds exactly from-key at 1 and to-key at 2. |
| Query.BuildQuery | src/hu/ppke/itk/itkStock/stockdata/StockData.java:86-97 | The prepared statement holds exactly as many placeholders as values are bound to it. |
| Query.InList | src/hu/ppke/itk/itkStock/stockdata/StockData.java:90-91 | The `StringBuilder` text for `n >= 1` tickers has length `3n - 2` and starts and ends with a placeholder. |
| Query.FilterClause | src/hu/ppke/itk/itkStock/stockdata/StockData.java:92 | The `and papername in (...)` clause is empty exactly when there are no tickers; otherwise it opens with the `in (` prefix, closes with `)` and has the length of `n` placeholders and their separators. |
| Query.SqlText | src/hu/ppke/itk/itkStock/stockdata/StockData.java:86-92 | Every statement begins with the date-range statement, and it is that statement alone exactly when there are no tickers. |
| Query.SqlIgnoresTickerValues | src/hu/ppke/itk/itkStock/stockdata/StockData.java:86-95 | No supplied value is spliced into the statement: requests with as many tickers prepare the same text whatever the tickers and dates, and the tickers reach it only as bound values. |
| Query.SelectPlaceholders | src/hu/ppke/itk/itkStock/stockdata/StockData.java:87 | The date-range statement holds exactly two placeholders. |
| Query.InListShape | src/hu/ppke/itk/itkStock/stockdata/StockData.java:90-91 | The list for `n >= 1` tickers has length `3n - 2`: `n` question marks at positions `3i`, separated by `", "`. |
| Query.FilterPlaceholders | src/hu/ppke/itk/itkStock/stockdata/StockData.java:92 | The `and papername in (...)` clause holds exactly one placeholder per ticker, and none without tickers. |
| Query.PlaceholderCount | src/hu/ppke/itk/itkStock/stockdata/StockData.java:86-97 | The date part holds 2 placeholders, the filter clause holds one per ticker, and the whole text holds `n + 2`. This matches the bound positions `1..n+2`. |
| Query.NoTickerFilter | src/hu/ppke/itk/itkStock/stockdata/StockData.java:86-97 | Tickers null or empty if and only if the statement is exactly the bare date-range query with exactly two bound values. |
| Query.BuildInList | src/hu/ppke/itk/itkStock/stockdata/StockData.java:90-91 | The `StringBuilder` loop produces the placeholder list for `n` tickers. |
| Query.BuildSql | src/hu/ppke/itk/itkStock/stockdata/StockData.java:86-92 | The branch on a null or empty ticker array and the `StringBuilder` loop prepare exactly `SqlText` of the ticker list. |
| Query.BindParameters | src/hu/ppke/itk/itkStock/stockdata/StockData.java:94-97 | The binding loop plus the two `setInt` calls build exactly `Bindings(Parameters(...))`: positions `1..n+2`, from-key at 1, to-key at 2, ticker `i` at `i + 3`. |
| Aggregation.Merge | src/hu/ppke/itk/itkStock/stockdata/StockData.java:116-120 | The merged price lies between the two prices and is within half a unit of their mean. The merged volume is the sum of the two volumes. |
| Aggregation.Step | src/hu/ppke/itk/itkStock/stockdata/StockData.java:107-127 | One loop pass adds the row's ticker and the row's decoded date under it. Every other ticker and every other date keeps its value. |
| Aggregation.StepObserves | src/hu/ppke/itk/itkStock/stockdata/StockData.java:114-125 | Both branches of one loop pass (ticker seen or not) amount to replacing the ticker's series, empty when absent, by that series with the row filed in at its date. |
| Aggregation.AggregateTickers | src/hu/ppke/itk/itkStock/stockdata/StockData.java:114-125 | The result's tickers are exactly the tickers that occur in the rows. |
| Aggregation.AggregateDates | src/hu/ppke/itk/itkStock/stockdata/StockData.java:113-125 | Each ticker's dates are exactly the decoded dates of that ticker's rows. |
| Aggregation.AggregateKeys | src/hu/ppke/itk/itkStock/stockdata/StockData.java:80-127 | The result holds exactly the tickers of the rows, and no series is empty. No rows give the empty map, and any row gives a non-empty map. |
| Aggregation.Aggregate | src/hu/ppke/itk/itkStock/stockdata/StockData.java:107-127 | The fold of the rows in arrival order; after any row, that row's ticker is in the result. |
| Aggregation.FirstSighting | src/hu/ppke/itk/itkStock/stockdata/StockData.java:114-125 | The first row for a (ticker, date) stores exactly its close and volume, whether or not its ticker was seen before. |
| Aggregation.Collision | src/hu/ppke/itk/itkStock/stockdata/StockData.java:116-120 | A row meeting a stored `(p0, v0)` for its (ticker, date) leaves `((p0 + close) / 2, v0 + volume)`, with truncating division. |
| Aggregation.Untouched | src/hu/ppke/itk/itkStock/stockdata/StockData.java:114-126 | An entry for another ticker or another date is left as the earlier rows left it. |
| Aggregation.VolumeConserved | src/hu/ppke/itk/itkStock/stockdata/StockData.java:118 | The stored volume of a (ticker, date) is the total volume of all rows for that pair. |
| Aggregation.PriceWithinCloses | src/hu/ppke/itk/itkStock/stockdata/StockData.java:117 | The stored price of a (ticker, date) lies between the lowest and the highest close among that pair's rows. |
| Aggregation.DistinctTickersCommute | src/hu/ppke/itk/itkStock/stockdata/StockData.java:114-125 | Two consecutive rows for different tickers give the same result in either order. |
| Aggregation.DistinctDatesCommute | src/hu/ppke/itk/itkStock/stockdata/StockData.java:114-125 | Two consecutive rows for one ticker on different dates give the same result in either order. |
| Aggregation.FirstPairCommutes | src/hu/ppke/itk/itkStock/stockdata/StockData.java:116-120 | The first two rows for one (ticker, date) give the same result in either order, because the merge adds the two closes and the two volumes. |
| Aggregation.StepsCommute | src/hu/ppke/itk/itkStock/stockdata/StockData.java:107-127 | Two consecutive loop passes can trade places unless both rows are for a (ticker, date) already in the result. |
| Aggregation.SameAfter | src/hu/ppke/itk/itkStock/stockdata/StockData.java:107-127 | Inputs that give the same result still give the same result after the same further rows. |
| Aggregation.SwapAdjacent | src/hu/ppke/itk/itkStock/stockdata/StockData.java:107-127 | Two adjacent rows anywhere in the input can be swapped without changing the result, unless both are for one (ticker, date) that earlier rows already filled. |
| Aggregation.TwoRowsCommute | src/hu/ppke/itk/itkStock/stockdata/StockData.java:117-118 | A two-row input gives the same result in either arrival order. |
| Aggregation.ThreeRowsOrderMatters | src/hu/ppke/itk/itkStock/stockdata/StockData.java:116-120 | Averaging is pairwise and sequential: closes 4, 0, 0 leave price 1, while closes 0, 0, 4 leave price 2. |
| Aggregation.SingleRow | src/hu/ppke/itk/itkStock/stockdata/StockData.java:122-125 | One row gives one ticker with one observation, taken from the row unchanged. |
| Aggregation.SameKeyPair | src/hu/ppke/itk/itkStock/stockdata/StockData.java:116-120 | Two rows for one (ticker, date) leave `((p1 + p2) / 2, v1 + v2)`. |
| Aggregation.SameKeyFold | src/hu/ppke/itk/itkStock/stockdata/StockData.java:116-120 | Three rows for one (ticker, date) leave `(((p1 + p2) / 2 + p3) / 2, v1 + v2 + v3)`. |
| Aggregation.ExampleFold | src/hu/ppke/itk/itkStock/stockdata/StockData.java:107-127 | Rows AAA 20140101 (100, 10), AAA 20140101 (200, 20) and BBB 20140102 (50, 5) give AAA 2014-01-01 (150, 30) and BBB 2014-01-02 (50, 5). |
| Aggregation.AggregateRows | src/hu/ppke/itk/itkStock/stockdata/StockData.java:107-127 | The `while (rs.next())` loop updating the result map in place computes the fold, and its tickers are those of the rows. |
| StockData.Fetch | src/hu/ppke/itk/itkStock/stockdata/StockData.java:79-138 | Its outcome is `FetchSpec`: the statement `BuildQuery` prepares, with its parameters bound at their positions, and the fold of the returned rows. The statement holds `n + 2` placeholders, and the result's tickers are those of the rows. |
| StockData.OneTickerSpec | src/hu/ppke/itk/itkStock/stockdata/StockData.java:15-17 | A one-ticker request prepares the one-ticker statement with three placeholders and binds from-key, to-key and ticker at 1, 2 and 3. |
| StockData.Requested | src/hu/ppke/itk/itkStock/stockdata/StockData.java:87-97 | What the statement's `where` clause asks of a row: key between the bound from-key and to-key, and, with tickers, `papername` equal to one of them. |
| StockData.ResultTickersRequested | src/hu/ppke/itk/itkStock/stockdata/StockData.java:92-125 | If the store returns only rows matching the statement, every result ticker is one of the requested tickers. |
| StockData.ResultDatesInRange | src/hu/ppke/itk/itkStock/stockdata/StockData.java:96-113 | If the store returns only rows matching the statement, every result date has a key in `[from, to]`. For in-range bounds the date also lies between `from` and `to` in date order. |
| StockData.SingleDateIsRange | src/hu/ppke/itk/itkStock/stockdata/StockData.java:38-40 | A single-date request binds the date's key at both range positions. For an in-range date, it is the only in-range date the range admits. |
| StockData.FetchTickerOnDate | src/hu/ppke/itk/itkStock/stockdata/StockData.java:15-17 | The outcome equals `FetchSpec` for the one-element array with both range ends at the date. The statement is the one-ticker statement with 3 placeholders, the bindings are exactly the date key at 1 and 2 and the ticker at 3, and the result is the fold of the rows. |
| StockData.FetchTickerInRange | src/hu/ppke/itk/itkStock/stockdata/StockData.java:26-28 | The outcome equals `FetchSpec` for the one-element array and the range. The statement is the one-ticker statement with 3 placeholders, the bindings are exactly the from-key at 1, the to-key at 2 and the ticker at 3, and the result is the fold of the rows. |
| StockData.FetchTickersOnDate | src/hu/ppke/itk/itkStock/stockdata/StockData.java:38-40 | The outcome equals `FetchSpec` with both range ends at the date, the same as the range overload with `from == to == date`. The date key is bound at positions 1 and 2, and the tickers follow in input order. There are `n + 2` placeholders, and the result is the fold of the rows. |
| StockData.FetchTickersInRange | src/hu/ppke/itk/itkStock/stockdata/StockData.java:49-51 | The outcome equals `FetchSpec` for the array and the range. The from-key is bound at 1 and the to-key at 2, and the tickers follow in input order. There are `n + 2` placeholders, and the result is the fold of the rows. |
| StockData.FetchOnDate | src/hu/ppke/itk/itkStock/stockdata/StockData.java:59-61 | The outcome equals `FetchSpec` for a null array with both range ends at the date: the bare date-range statement, the date key bound at positions 1 and 2 and nowhere else, and the fold of the rows. |
| StockData.FetchInRange | src/hu/ppke/itk/itkStock/stockdata/StockData.java:69-71 | The outcome equals `FetchSpec` for a null array and the range: the bare date-range statement, the from-key at 1 and the to-key at 2 and nowhere else, and the fold of the rows. |

## Left out

- Connection handling (`DatabaseConnector`, `initConnection`, `prepareStatement`, `executeQuery`, the cursor, the closing calls in `finally`). These are I/O against an external store. The rows are a parameter and the statement is its text and bindings.
- How the store evaluates `between` and `in`. `ResultTickersRequested` and `ResultDatesInRange` take "every returned row satisfies the statement" as a precondition instead of proving it.
- ResultTickersRequested: its precondition reads `papername in (...)` as exact, case-sensitive string equality (`Requested`). The store compares `VARCHAR` values under its collation, and MySQL's default collations ignore case, so a row `ECONET` can come back for a request for `econet`; the lemma says nothing about such a store.
- Java nulls. A null `from` or `to` throws a `NullPointerException` at StockData.java:96-97. A null `ticker` (StockData.java:16, :27) or a null element of `tickers` (:94) is bound as SQL `NULL` and matches no row. A row with a `NULL` `papername`, which only the unfiltered statement (:87) can return, is stored under the key `null` (:108, :114, :124). `StockDate`, `string` and `Row.ticker` have no null value, so none of these cases is modelled.
- The caught `ClassNotFoundException` (driver loading), which prints a trace and returns the empty map. Connection failures are not modelled.
- The `main` demonstration, which only prints.
- The internals of `StockDate`, `Transaction` and the `TreeMap` ordering; those classes are not part of this model. A series is an unordered Dafny `map` keyed by `(year, month, day)`. The ascending order of the `TreeMap` is represented only by `Before` and `EncodeMonotone`.
- The unused `time` variable; the statement never selects a time column.
- In the source, the inner `TreeMap` is put into the result before its first entry is added, and the entry is visible through that alias. The model builds the updated inner map and stores it again.
- EncodeDate: Java's 32-bit `int` overflow of the key is not modelled; integers are unbounded.
- Merge: 32-bit overflow of the price sum and the volume sum is not modelled; integers are unbounded.
