/**
 Calendar dates at day granularity and their integer key `yyyymmdd`, as the
 store keeps them in its `date` column.
 */
module StockDates {
  import opened JavaInt

  /** A date without time of day; equal exactly when year, month and day agree. */
  datatype StockDate = StockDate(year: int, month: int, day: int)

  /** The fields fit the decimal layout of the key: a non-negative year and a month and day below 100. */
  predicate InRange(d: StockDate)
  {
    d.year >= 0 && 0 <= d.month < 100 && 0 <= d.day < 100
  }

  /** The integer key bound to the `date between ? and ?` placeholders. */
  function EncodeDate(d: StockDate): (k: int)
    ensures InRange(d) ==> k >= 0
  {
    d.year * 10000 + d.month * 100 + d.day
  }

  /** The date read back from a row's integer key, with Java's truncating `/` and `%`. */
  function DecodeDate(k: int): (d: StockDate)
    ensures k >= 0 ==> InRange(d)
  {
    StockDate(Div(k, 10000), Div(Mod(k, 10000), 100), Mod(k, 100))
  }

  /** Lexicographic order on dates: year, then month, then day. */
  predicate Before(a: StockDate, b: StockDate)
  {
    a.year < b.year
    || (a.year == b.year && a.month < b.month)
    || (a.year == b.year && a.month == b.month && a.day < b.day)
  }

  /** A key split as `10000 * y + low` with `low` in the lower four digits has quotient `y` and remainder `low`. */
  lemma SplitYear(k: int, y: int, low: int)
    requires k == 10000 * y + low && y >= 0 && 0 <= low < 10000
    ensures Div(k, 10000) == y && Mod(k, 10000) == low
  {
    assert k >= 0;
    assert k / 10000 == y;
  }

  /** Four lower digits split as `100 * m + d` with `d` below 100 have quotient `m` and remainder `d`. */
  lemma SplitMonth(low: int, m: int, d: int)
    requires low == 100 * m + d && m >= 0 && 0 <= d < 100
    ensures Div(low, 100) == m && Mod(low, 100) == d
  {
    assert low >= 0;
    assert low / 100 == m;
  }

  /** Decoding an encoded in-range date gives the date back. */
  lemma DecodeEncode(d: StockDate)
    requires InRange(d)
    ensures DecodeDate(EncodeDate(d)) == d
  {
    var k := EncodeDate(d);
    var low := d.month * 100 + d.day;
    SplitYear(k, d.year, low);
    SplitMonth(low, d.month, d.day);
    SplitMonth(k, 100 * d.year + d.month, d.day);
  }

  /** The truncating remainder by 100 is determined by any decomposition `k == 100 * n + x` whose remainder has the sign of `k`. */
  lemma ModHundred(k: int, n: int, x: int)
    requires k == 100 * n + x
    requires (k >= 0 && 0 <= x < 100) || (k < 0 && -100 < x <= 0)
    ensures Mod(k, 100) == x
  {
    if k >= 0 {
      assert k / 100 == n;
    } else {
      assert -k == 100 * (-n) + (-x);
      assert (-k) / 100 == -n;
    }
  }

  /** Every integer key, negative ones included, is re-encoded exactly from its decoded date. */
  lemma EncodeDecode(k: int)
    ensures EncodeDate(DecodeDate(k)) == k
  {
    var q := Div(k, 10000);
    var r := Mod(k, 10000);
    var m := Div(r, 100);
    var d := Mod(r, 100);
    assert r == 100 * m + d;
    assert k == 10000 * q + r;
    ModHundred(k, 100 * q + m, d);
  }

  /** On in-range dates the integer keys are ordered as the dates are, so `between` on keys is a date range. */
  lemma EncodeMonotone(a: StockDate, b: StockDate)
    requires InRange(a) && InRange(b)
    ensures Before(a, b) <==> EncodeDate(a) < EncodeDate(b)
    ensures a == b <==> EncodeDate(a) == EncodeDate(b)
  {
    var la := a.month * 100 + a.day;
    var lb := b.month * 100 + b.day;
    assert 0 <= la < 10000 && 0 <= lb < 10000;
    if a.year < b.year {
      assert 10000 * a.year + 10000 <= 10000 * b.year;
    } else if a.year > b.year {
      assert 10000 * b.year + 10000 <= 10000 * a.year;
    }
    if EncodeDate(a) == EncodeDate(b) {
      DecodeEncode(a);
      DecodeEncode(b);
    }
  }
}
