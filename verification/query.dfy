/**
 The query builder of `StockData.fetch`: the SQL text with a ticker `in (...)`
 list whose length follows the input, and the values bound to its
 placeholders by position (JDBC positions start at 1).
 */
module Query {
  import opened Wrappers
  import opened StockDates

  /** A value handed to `setInt` or `setString`. */
  datatype Param = IntParam(n: int) | StringParam(s: string)

  /** A statement and the values of its placeholders: `params[k]` is bound at position `k + 1`. */
  datatype Statement = Statement(sql: string, params: seq<Param>)

  /** The statement used when no ticker filter is given, written in short pieces. */
  const SelectSql: string :=
    "select papername, " + "date, close, " + "volume from " + "StockData where " + "date between " + "?" + " and " + "?"

  /** The text placed between `SelectSql` and the placeholder list when tickers are given. */
  const InPrefix: string := " and papername in ("

  /** The text closing the placeholder list. */
  const InSuffix: string := ")"

  /** The number of placeholders in a text. */
  function Placeholders(s: string): nat
  {
    multiset(s)['?']
  }

  /** The ticker array as a list: Java's null array is read as the empty one. */
  function TickerList(tickers: Option<seq<string>>): seq<string>
  {
    match tickers
    case None => []
    case Some(ts) => ts
  }

  /** The placeholder list as the `StringBuilder` grows it: `?`, then `, ?` once per further ticker. */
  function InList(n: nat): (s: string)
    requires n >= 1
    ensures |s| == 3 * n - 2
    ensures s[0] == '?' && s[|s| - 1] == '?'
  {
    if n == 1 then "?" else InList(n - 1) + ", ?"
  }

  /** What follows the date-range predicate: nothing without tickers, else the `in (...)` predicate. */
  function FilterClause(ts: seq<string>): (s: string)
    ensures |ts| == 0 <==> s == []
    ensures |ts| > 0 ==> |s| == |InPrefix| + 3 * |ts| - 2 + |InSuffix|
    ensures |ts| > 0 ==> s[..|InPrefix|] == InPrefix && s[|s| - 1] == ')'
  {
    if |ts| < 1 then "" else InPrefix + InList(|ts|) + InSuffix
  }

  /**
   The SQL text for a ticker list: the date-range statement, followed by the
   filter clause. It depends on how many tickers there are, never on their
   values, which are only bound.
   */
  function SqlText(ts: seq<string>): (s: string)
    ensures |s| >= |SelectSql| && s[..|SelectSql|] == SelectSql
    ensures s == SelectSql <==> |ts| == 0
  {
    SelectSql + FilterClause(ts)
  }

  /** The bound values in position order: both date keys, then every ticker in input order. */
  function Parameters(ts: seq<string>, from: StockDate, to: StockDate): (ps: seq<Param>)
    ensures |ps| == |ts| + 2
    ensures ps[0] == IntParam(EncodeDate(from)) && ps[1] == IntParam(EncodeDate(to))
    ensures forall i :: 0 <= i < |ts| ==> ps[i + 2] == StringParam(ts[i])
  {
    [IntParam(EncodeDate(from)), IntParam(EncodeDate(to))] + seq(|ts|, i requires 0 <= i < |ts| => StringParam(ts[i]))
  }

  /** The placeholder positions and the values bound there: `ps[i]` at position `i + 1`. */
  function Bindings(ps: seq<Param>): (m: map<int, Param>)
    ensures forall k :: k in m <==> 1 <= k <= |ps|
    ensures forall i :: 0 <= i < |ps| ==> m[i + 1] == ps[i]
  {
    if ps == [] then map[] else Bindings(ps[..|ps| - 1])[|ps| := ps[|ps| - 1]]
  }

  /**
   The bound positions of a request: the from-key at 1, the to-key at 2,
   ticker `i` at `i + 3`, and no other position.
   */
  lemma BoundPositions(ts: seq<string>, from: StockDate, to: StockDate)
    ensures var m := Bindings(Parameters(ts, from, to));
      && (forall k :: k in m <==> 1 <= k <= |ts| + 2)
      && m[1] == IntParam(EncodeDate(from)) && m[2] == IntParam(EncodeDate(to))
      && (forall i :: 0 <= i < |ts| ==> m[i + 3] == StringParam(ts[i]))
  {
    var ps := Parameters(ts, from, to);
    forall i | 0 <= i < |ts| ensures Bindings(ps)[i + 3] == StringParam(ts[i]) {
      assert Bindings(ps)[(i + 2) + 1] == ps[i + 2];
    }
  }

  /** A request for one ticker binds exactly the from-key at 1, the to-key at 2 and the ticker at 3. */
  lemma OneTickerBindings(ticker: string, from: StockDate, to: StockDate)
    ensures Bindings(Parameters([ticker], from, to))
      == map[1 := IntParam(EncodeDate(from)), 2 := IntParam(EncodeDate(to)), 3 := StringParam(ticker)]
  {
    var ps := Parameters([ticker], from, to);
    assert ps[0 + 2] == StringParam(ticker);
  }

  /** A request without tickers binds exactly the from-key at 1 and the to-key at 2. */
  lemma NoTickerBindings(from: StockDate, to: StockDate)
    ensures Bindings(Parameters([], from, to)) == map[1 := IntParam(EncodeDate(from)), 2 := IntParam(EncodeDate(to))]
  {
  }

  /** The statement `fetch` prepares together with the values it binds. */
  function BuildQuery(tickers: Option<seq<string>>, from: StockDate, to: StockDate): (st: Statement)
    ensures Placeholders(st.sql) == |st.params|
  {
    var ts := TickerList(tickers);
    PlaceholderCount(ts);
    Statement(SqlText(ts), Parameters(ts, from, to))
  }

  /** None of the fixed words of the statement contains a placeholder. */
  lemma FixedWordsPlain()
    ensures '?' !in "select papername, " && '?' !in "date, close, " && '?' !in "volume from "
    ensures '?' !in "StockData where " && '?' !in "date between " && '?' !in " and "
    ensures '?' !in InPrefix && '?' !in InSuffix
  {
  }

  /** The fixed part of the statement holds exactly the two date placeholders. */
  lemma SelectPlaceholders()
    ensures Placeholders(SelectSql) == 2
  {
    FixedWordsPlain();
    assert multiset(SelectSql) == multiset("select papername, ") + multiset("date, close, ") + multiset("volume from ")
      + multiset("StockData where ") + multiset("date between ") + multiset("?") + multiset(" and ") + multiset("?");
  }

  /**
   The placeholder list for `n` tickers is exactly `n` question marks separated
   by `", "`: position `3i` holds the `i`-th placeholder and the two characters
   after it, where there is a next one, are the separator.
   */
  lemma {:induction false} InListShape(n: nat)
    requires n >= 1
    ensures |InList(n)| == 3 * n - 2
    ensures Placeholders(InList(n)) == n
    ensures forall i :: 0 <= i < n ==> InList(n)[3 * i] == '?'
    ensures forall i :: 0 <= i < n - 1 ==> InList(n)[3 * i + 1] == ',' && InList(n)[3 * i + 2] == ' '
  {
    if n > 1 {
      InListShape(n - 1);
      var s := InList(n - 1);
      assert InList(n) == s + ", ?";
      assert multiset(InList(n)) == multiset(s) + multiset(", ?");
      forall i | 0 <= i < n ensures InList(n)[3 * i] == '?' {
        if i < n - 1 {
          assert InList(n)[3 * i] == s[3 * i];
        }
      }
      forall i | 0 <= i < n - 1 ensures InList(n)[3 * i + 1] == ',' && InList(n)[3 * i + 2] == ' ' {
        if i < n - 2 {
          assert InList(n)[3 * i + 1] == s[3 * i + 1];
          assert InList(n)[3 * i + 2] == s[3 * i + 2];
        }
      }
    }
  }

  /** The placeholders of two joined texts add up. */
  lemma JoinedPlaceholders(a: string, b: string)
    ensures Placeholders(a + b) == Placeholders(a) + Placeholders(b)
  {
    assert multiset(a + b) == multiset(a) + multiset(b);
  }

  /** The filter clause holds one placeholder per ticker. */
  lemma FilterPlaceholders(ts: seq<string>)
    ensures Placeholders(FilterClause(ts)) == |ts|
  {
    if |ts| >= 1 {
      InListShape(|ts|);
      FixedWordsPlain();
      JoinedPlaceholders(InPrefix, InList(|ts|));
      JoinedPlaceholders(InPrefix + InList(|ts|), InSuffix);
    }
  }

  /**
   The text has one placeholder per bound value: the date-range part holds
   the first two, and the filter clause after it holds one per ticker.
   */
  lemma PlaceholderCount(ts: seq<string>)
    ensures Placeholders(SelectSql) == 2
    ensures Placeholders(FilterClause(ts)) == |ts|
    ensures Placeholders(SqlText(ts)) == |ts| + 2
  {
    SelectPlaceholders();
    FilterPlaceholders(ts);
    JoinedPlaceholders(SelectSql, FilterClause(ts));
  }

  /**
   With no tickers (null or empty) the statement is the bare date-range query
   with exactly two bound values; with tickers it carries the `in (...)`
   predicate.
   */
  lemma NoTickerFilter(tickers: Option<seq<string>>, from: StockDate, to: StockDate)
    ensures var st := BuildQuery(tickers, from, to);
      (tickers.None? || tickers.value == []) <==> (st.sql == SelectSql && |st.params| == 2)
  {
    var ts := TickerList(tickers);
    assert BuildQuery(tickers, from, to).sql == SqlText(ts);
  }

  /**
   No supplied value is spliced into the statement: two requests with as many
   tickers prepare the same text, whatever the tickers and the dates, and
   their values reach the statement only as bound parameters.
   */
  lemma SqlIgnoresTickerValues(a: seq<string>, b: seq<string>, from: StockDate, to: StockDate, from': StockDate, to': StockDate)
    requires |a| == |b|
    ensures BuildQuery(Some(a), from, to).sql == BuildQuery(Some(b), from', to').sql
    ensures forall i :: 0 <= i < |a| ==> BuildQuery(Some(a), from, to).params[i + 2] == StringParam(a[i])
  {
  }

  /** Builds the placeholder list with a loop, as the `StringBuilder` does. */
  method BuildInList(n: nat) returns (sb: string)
    requires n >= 1
    ensures sb == InList(n)
  {
    sb := "?";
    var i := 1;
    while i < n
      invariant 1 <= i <= n
      invariant sb == InList(i)
    {
      sb := sb + ", ?";
      i := i + 1;
    }
  }

  /**
   Prepares the statement text as `fetch` does: the bare date-range statement
   without tickers, else that statement with the placeholder list the loop
   builds.
   */
  method BuildSql(tickers: Option<seq<string>>) returns (sql: string)
    ensures sql == SqlText(TickerList(tickers))
  {
    if tickers.None? || |tickers.value| < 1 {
      sql := SelectSql;
    } else {
      var sb := BuildInList(|tickers.value|);
      sql := SelectSql + InPrefix + sb + InSuffix;
      assert sql == SelectSql + (InPrefix + sb + InSuffix);
    }
  }

  /**
   Binds the statement's parameters in the order `fetch` does: ticker `i` at
   position `i + 3` in a loop, then the two date keys at positions 1 and 2.
   */
  method BindParameters(ts: seq<string>, from: StockDate, to: StockDate) returns (bound: map<int, Param>)
    ensures bound == Bindings(Parameters(ts, from, to))
    ensures forall k :: k in bound <==> 1 <= k <= |ts| + 2
    ensures forall i :: 0 <= i < |ts| + 2 ==> bound[i + 1] == Parameters(ts, from, to)[i]
    ensures bound[1] == IntParam(EncodeDate(from)) && bound[2] == IntParam(EncodeDate(to))
    ensures forall i :: 0 <= i < |ts| ==> bound[i + 3] == StringParam(ts[i])
  {
    bound := map[];
    var i := 0;
    while i < |ts|
      invariant 0 <= i <= |ts|
      invariant forall k :: k in bound <==> 3 <= k < i + 3
      invariant forall j :: 0 <= j < i ==> bound[j + 3] == StringParam(ts[j])
    {
      bound := bound[i + 3 := StringParam(ts[i])];
      i := i + 1;
    }
    bound := bound[1 := IntParam(EncodeDate(from))];
    bound := bound[2 := IntParam(EncodeDate(to))];
    var ps := Parameters(ts, from, to);
    forall i | 0 <= i < |ps| ensures bound[i + 1] == ps[i] {
      if i >= 2 {
        assert bound[(i - 2) + 3] == StringParam(ts[i - 2]);
      }
    }
    var m := Bindings(ps);
    forall k | k in bound ensures k in m && m[k] == bound[k] {
      assert ps[k - 1] == bound[(k - 1) + 1];
    }
    assert bound.Keys == m.Keys;
  }
}
