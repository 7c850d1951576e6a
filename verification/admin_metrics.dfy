/**
 * The dashboard figures computed from the filtered rows of admin_app.py:
 * the average rating, the latest timestamp, the rating distribution, the
 * daily rating trend, the average lexicon sentiment and the list of the
 * fifty most recent submissions.
 */
module AdminMetrics {
  import opened Common
  import opened Text
  import opened Tally
  import opened AdminRows
  import opened AdminFilters
  import Sentiment

  /** How many submissions the recent list shows. */
  const RecentLimit: nat := 50

  // ---------------------------------------------------------------- ratings

  /** How many rows have no rating (NaN). */
  function Unrated(rows: seq<Row>): (n: nat)
    ensures n <= |rows|
  {
    if rows == [] then 0 else (if rows[0].rating.None? then 1 else 0) + Unrated(rows[1..])
  }

  /**
   * The ratings present, as floats (`astype(float)`), in row order; pandas
   * skips a missing rating when it averages.
   */
  function Ratings(rows: seq<Row>): (xs: seq<real>)
    ensures |xs| + Unrated(rows) == |rows|
  {
    if rows == [] then []
    else
      (if rows[0].rating.Some? then [rows[0].rating.value as real] else []) + Ratings(rows[1..])
  }

  /** Every rating present lies between `lo` and `hi`. */
  predicate RatingsWithin(rows: seq<Row>, lo: int, hi: int) {
    forall i :: 0 <= i < |rows| && rows[i].rating.Some? ==> lo <= rows[i].rating.value <= hi
  }

  lemma {:induction false} RatingsBounded(rows: seq<Row>, lo: int, hi: int)
    requires RatingsWithin(rows, lo, hi)
    ensures forall j :: 0 <= j < |Ratings(rows)| ==> lo as real <= Ratings(rows)[j] <= hi as real
  {
    if rows != [] {
      assert RatingsWithin(rows[1..], lo, hi) by {
        forall i | 0 <= i < |rows| - 1 && rows[1..][i].rating.Some?
          ensures lo <= rows[1..][i].rating.value <= hi
        {
          assert rows[1..][i] == rows[i + 1];
        }
      }
      RatingsBounded(rows[1..], lo, hi);
    }
  }

  /** A dashboard figure: the dash of an empty table, pandas' NaN, or a number. */
  datatype Figure = Dash | NotANumber | Value(value: real)

  /**
   * `df["rating"].astype(float).mean()`, or the dash for an empty table.
   * A table whose ratings are all missing averages to NaN.
   */
  function MeanRating(rows: seq<Row>): (m: Figure)
    ensures m.Dash? <==> rows == []
    ensures m.NotANumber? <==> rows != [] && Unrated(rows) == |rows|
  {
    if rows == [] then Dash
    else
      var xs := Ratings(rows);
      if xs == [] then NotANumber else Value(SumReals(xs) / |xs| as real)
  }

  /** The average of ratings that lie between `lo` and `hi` lies there too. */
  lemma MeanRatingBounds(rows: seq<Row>, lo: int, hi: int)
    requires MeanRating(rows).Value?
    requires RatingsWithin(rows, lo, hi)
    ensures lo as real <= MeanRating(rows).value <= hi as real
  {
    RatingsBounded(rows, lo, hi);
    MeanBounds(Ratings(rows), lo as real, hi as real);
  }

  // ------------------------------------------------------------- timestamps

  /** The timestamp strings of the rows. */
  function Stamps(rows: seq<Row>): set<string> {
    if rows == [] then {} else {rows[0].timestamp} + Stamps(rows[1..])
  }

  /** If `m` bounds every timestamp and `t` bounds `m`, `t` bounds every timestamp. */
  lemma RaiseBound(rows: seq<Row>, m: string, t: string)
    requires forall i :: 0 <= i < |rows| ==> LexLe(rows[i].timestamp, m)
    requires LexLe(m, t)
    ensures forall i :: 0 <= i < |rows| ==> LexLe(rows[i].timestamp, t)
  {
    forall i | 0 <= i < |rows|
      ensures LexLe(rows[i].timestamp, t)
    {
      LexLeTransitive(rows[i].timestamp, m, t);
    }
  }

  /**
   * `df["timestamp"].max()`: the greatest timestamp, compared as text, one
   * of the rows' own; `None` is the dash shown for an empty table.
   */
  function Latest(rows: seq<Row>): (t: Option<string>)
    ensures t.None? <==> rows == []
    ensures t.Some? ==> t.value in Stamps(rows)
    ensures t.Some? ==> forall i :: 0 <= i < |rows| ==> LexLe(rows[i].timestamp, t.value)
  {
    if rows == [] then None
    else
      match Latest(rows[1..])
      case None =>
        LexLeTotal(rows[0].timestamp, rows[0].timestamp);
        Some(rows[0].timestamp)
      case Some(m) =>
        LexLeTotal(rows[0].timestamp, m);
        if LexLe(rows[0].timestamp, m) then
          assert forall i :: 1 <= i < |rows| ==> rows[i].timestamp == rows[1..][i - 1].timestamp;
          Some(m)
        else
          RaiseBound(rows[1..], m, rows[0].timestamp);
          LexLeTotal(rows[0].timestamp, rows[0].timestamp);
          assert forall i :: 1 <= i < |rows| ==> rows[i].timestamp == rows[1..][i - 1].timestamp;
          Some(rows[0].timestamp)
  }

  // ----------------------------------------------------------- distribution

  /** How many rows carry rating `k`; a missing rating is no rating. */
  function RatingCount(rows: seq<Row>, k: int): nat {
    if rows == [] then 0 else (if rows[0].rating == Some(k) then 1 else 0) + RatingCount(rows[1..], k)
  }

  /** (rating, 1) for each rated row. */
  function RatingEntries(rows: seq<Row>): (es: seq<(int, int)>)
    ensures |es| + Unrated(rows) == |rows|
  {
    if rows == [] then []
    else (if rows[0].rating.Some? then [(rows[0].rating.value, 1)] else []) + RatingEntries(rows[1..])
  }

  lemma {:induction false} RatingEntriesCount(rows: seq<Row>, k: int)
    ensures CountOf(RatingEntries(rows), k) == RatingCount(rows, k)
  {
    if rows != [] {
      RatingEntriesCount(rows[1..], k);
      if rows[0].rating.Some? {
        assert RatingEntries(rows)[1..] == RatingEntries(rows[1..]);
      } else {
        assert RatingEntries(rows) == RatingEntries(rows[1..]);
      }
    }
  }

  /** Some pair of `d` has key `k`. */
  predicate Listed<V>(d: seq<(int, V)>, k: int) {
    exists j :: 0 <= j < |d| && d[j].0 == k
  }

  /** The (key, count) pairs of the buckets. */
  function Counts(bs: seq<Bucket>): (d: seq<(int, nat)>)
    ensures |d| == |bs|
    ensures forall i :: 0 <= i < |bs| ==> d[i] == (bs[i].key, bs[i].count)
  {
    if bs == [] then [] else [(bs[0].key, bs[0].count)] + Counts(bs[1..])
  }

  function CountSum(d: seq<(int, nat)>): nat {
    if d == [] then 0 else d[0].1 + CountSum(d[1..])
  }

  lemma {:induction false} CountsSum(bs: seq<Bucket>)
    ensures CountSum(Counts(bs)) == SumCounts(bs)
  {
    if bs != [] {
      CountsSum(bs[1..]);
      assert Counts(bs)[1..] == Counts(bs[1..]);
    }
  }

  /**
   * `df["rating"].value_counts().sort_index()`: one (rating, count) pair
   * per rating that occurs, in ascending rating order. Missing ratings are
   * not counted, so the counts add up to the number of rated rows.
   */
  function Distribution(rows: seq<Row>): (d: seq<(int, nat)>)
    ensures forall i, j :: 0 <= i < j < |d| ==> d[i].0 < d[j].0
    ensures forall j :: 0 <= j < |d| ==> d[j].1 == RatingCount(rows, d[j].0) > 0
    ensures forall k :: RatingCount(rows, k) > 0 ==> Listed(d, k)
    ensures CountSum(d) + Unrated(rows) == |rows|
  {
    var es := RatingEntries(rows);
    var g := Group(es);
    CountsSum(g);
    var d := Counts(g);
    assert forall j :: 0 <= j < |d| ==> d[j].1 == RatingCount(rows, d[j].0) by {
      forall j | 0 <= j < |d|
        ensures d[j].1 == RatingCount(rows, d[j].0)
      {
        assert d[j] == (g[j].key, g[j].count);
        LookupOwnKey(g, j);
        RatingEntriesCount(rows, g[j].key);
      }
    }
    assert forall k :: RatingCount(rows, k) > 0 ==> Listed(d, k) by {
      forall k | RatingCount(rows, k) > 0
        ensures Listed(d, k)
      {
        RatingEntriesCount(rows, k);
        CountAtFound(g, k);
        var j :| 0 <= j < |g| && g[j].key == k;
        assert d[j].0 == k;
      }
    }
    d
  }

  // --------------------------------------------------------------- headline

  /** The three figures at the top of the dashboard; `None` is the dash. */
  datatype Headline = Headline(total: nat, meanRating: Figure, latest: Option<string>)

  /**
   * Total feedback, average rating and latest submission of the filtered
   * rows. An empty table shows 0 and two dashes. The total is what the
   * rating distribution adds up to plus the unrated rows, and the mean is
   * NaN exactly when rows are shown but none is rated.
   */
  function Headlines(rows: seq<Row>): (h: Headline)
    ensures h.total == 0 <==> h.meanRating.Dash?
    ensures h.total == 0 <==> h.latest.None?
    ensures h.total == CountSum(Distribution(rows)) + Unrated(rows)
    ensures h.meanRating.NotANumber? <==> h.total > 0 && Distribution(rows) == []
  {
    var d := Distribution(rows);
    assert d != [] ==> CountSum(d) >= d[0].1 > 0;
    Headline(|rows|, MeanRating(rows), Latest(rows))
  }

  // ------------------------------------------------------------------ trend

  function Sum(xs: seq<int>): int {
    if xs == [] then 0 else xs[0] + Sum(xs[1..])
  }

  /** The mean of the ratings of one day; `None` (NaN) when all of them are missing. */
  function DayAverage(xs: seq<int>): Option<real> {
    if xs == [] then None else Some(Sum(xs) as real / |xs| as real)
  }

  /** The row's timestamp parsed to a time on `day`. */
  predicate OnDay(row: Row, day: int) {
    row.parsed.Some? && row.parsed.value.day == day
  }

  /** How many rows have a timestamp on `day`. */
  function RowsOnDay(rows: seq<Row>, day: int): nat {
    if rows == [] then 0 else (if OnDay(rows[0], day) then 1 else 0) + RowsOnDay(rows[1..], day)
  }

  /** The ratings present among the rows with a timestamp on `day`, in row order. */
  function RatingsOnDay(rows: seq<Row>, day: int): seq<int> {
    if rows == [] then []
    else
      (if OnDay(rows[0], day) && rows[0].rating.Some? then [rows[0].rating.value] else [])
      + RatingsOnDay(rows[1..], day)
  }

  /** (day, 0) for each row with a parsed timestamp: the groups of the trend. */
  function ParsedDays(rows: seq<Row>): seq<(int, int)> {
    if rows == [] then []
    else (if rows[0].parsed.Some? then [(rows[0].parsed.value.day, 0)] else []) + ParsedDays(rows[1..])
  }

  /** (day, rating) for each row with a parsed timestamp and a rating. */
  function DayEntries(rows: seq<Row>): seq<(int, int)> {
    if rows == [] then []
    else
      (if rows[0].parsed.Some? && rows[0].rating.Some? then [(rows[0].parsed.value.day, rows[0].rating.value)] else [])
      + DayEntries(rows[1..])
  }

  lemma {:induction false} ParsedDaysOnDay(rows: seq<Row>, day: int)
    ensures CountOf(ParsedDays(rows), day) == RowsOnDay(rows, day)
  {
    if rows != [] {
      ParsedDaysOnDay(rows[1..], day);
      if rows[0].parsed.Some? {
        assert ParsedDays(rows)[1..] == ParsedDays(rows[1..]);
      } else {
        assert ParsedDays(rows) == ParsedDays(rows[1..]);
      }
    }
  }

  lemma {:induction false} DayEntriesOnDay(rows: seq<Row>, day: int)
    ensures CountOf(DayEntries(rows), day) == |RatingsOnDay(rows, day)|
    ensures TotalOf(DayEntries(rows), day) == Sum(RatingsOnDay(rows, day))
  {
    if rows != [] {
      DayEntriesOnDay(rows[1..], day);
      var es := DayEntries(rows);
      var xs := RatingsOnDay(rows, day);
      if rows[0].parsed.Some? && rows[0].rating.Some? {
        assert es[1..] == DayEntries(rows[1..]);
      } else {
        assert es == DayEntries(rows[1..]);
      }
      if OnDay(rows[0], day) && rows[0].rating.Some? {
        assert xs[1..] == RatingsOnDay(rows[1..], day);
      } else {
        assert xs == RatingsOnDay(rows[1..], day);
      }
    }
  }

  /** The mean recorded for `day` in the grouping of the rated entries; `None` when it has none. */
  function BucketMean(rated: seq<Bucket>, day: int): Option<real> {
    var n := CountAt(rated, day);
    if n == 0 then None else Some(TotalAt(rated, day) as real / n as real)
  }

  /**
   * `groupby("date_only")["rating"].mean().sort_values("date_only")`: one
   * (day, mean rating) pair per day on which some row's timestamp parsed,
   * in ascending day order. The mean skips missing ratings and is NaN for
   * a day whose ratings are all missing.
   */
  function Trend(rows: seq<Row>): (t: seq<(int, Option<real>)>)
    ensures forall i, j :: 0 <= i < j < |t| ==> t[i].0 < t[j].0
    ensures forall j :: 0 <= j < |t| ==>
              RowsOnDay(rows, t[j].0) > 0 && t[j].1 == DayAverage(RatingsOnDay(rows, t[j].0))
    ensures forall day :: RowsOnDay(rows, day) > 0 ==> Listed(t, day)
  {
    var days := Group(ParsedDays(rows));
    var rated := Group(DayEntries(rows));
    var t := seq(|days|, i requires 0 <= i < |days| => (days[i].key, BucketMean(rated, days[i].key)));
    assert forall j :: 0 <= j < |t| ==>
             RowsOnDay(rows, t[j].0) > 0 && t[j].1 == DayAverage(RatingsOnDay(rows, t[j].0)) by {
      forall j | 0 <= j < |t|
        ensures RowsOnDay(rows, t[j].0) > 0 && t[j].1 == DayAverage(RatingsOnDay(rows, t[j].0))
      {
        assert t[j] == (days[j].key, BucketMean(rated, days[j].key));
        TrendPoint(rows, j);
      }
    }
    assert forall day :: RowsOnDay(rows, day) > 0 ==> Listed(t, day) by {
      forall day | RowsOnDay(rows, day) > 0
        ensures Listed(t, day)
      {
        ParsedDaysOnDay(rows, day);
        CountAtFound(days, day);
        var j :| 0 <= j < |days| && days[j].key == day;
        assert t[j].0 == day;
      }
    }
    t
  }

  /** The day of the `j`-th bucket has parsed rows, and its point is the mean of its present ratings. */
  lemma TrendPoint(rows: seq<Row>, j: int)
    requires 0 <= j < |Group(ParsedDays(rows))|
    ensures var day := Group(ParsedDays(rows))[j].key;
            RowsOnDay(rows, day) > 0
            && BucketMean(Group(DayEntries(rows)), day) == DayAverage(RatingsOnDay(rows, day))
  {
    var days := Group(ParsedDays(rows));
    var rated := Group(DayEntries(rows));
    var day := days[j].key;
    LookupOwnKey(days, j);
    assert CountOf(ParsedDays(rows), day) == days[j].count > 0;
    ParsedDaysOnDay(rows, day);
    assert CountAt(rated, day) == CountOf(DayEntries(rows), day);
    assert TotalAt(rated, day) == TotalOf(DayEntries(rows), day);
    DayEntriesOnDay(rows, day);
  }

  lemma {:induction false} ParsedRowCounted(rows: seq<Row>, i: int)
    requires 0 <= i < |rows| && rows[i].parsed.Some?
    ensures RowsOnDay(rows, rows[i].parsed.value.day) > 0
    ensures rows[i].rating.Some? ==> rows[i].rating.value in RatingsOnDay(rows, rows[i].parsed.value.day)
  {
    if i > 0 {
      ParsedRowCounted(rows[1..], i - 1);
    }
  }

  /**
   * Every day on which some row's timestamp parsed has a point on the
   * trend, and that point is a number when the row is rated.
   */
  lemma ParsedDayOnTrend(rows: seq<Row>, i: int)
    requires 0 <= i < |rows| && rows[i].parsed.Some?
    ensures Listed(Trend(rows), rows[i].parsed.value.day)
    ensures rows[i].rating.Some? ==>
              forall j :: 0 <= j < |Trend(rows)| && Trend(rows)[j].0 == rows[i].parsed.value.day ==>
                Trend(rows)[j].1.Some?
  {
    ParsedRowCounted(rows, i);
  }

  /** A row whose timestamp did not parse leaves the trend as it is. */
  lemma UnparsedRowIgnored(row: Row, rows: seq<Row>)
    requires row.parsed.None?
    ensures Trend([row] + rows) == Trend(rows)
  {
    assert ([row] + rows)[1..] == rows;
    assert DayEntries([row] + rows) == DayEntries(rows);
    assert ParsedDays([row] + rows) == ParsedDays(rows);
  }

  // -------------------------------------------------------------- sentiment

  /**
   * Summary, review and actions joined by single spaces and stripped;
   * missing cells read as empty. Its words are the three cells' words in
   * that order.
   */
  function Blob(row: Row): (b: string)
    ensures Words(b) == Words(Cell(row.summary)) + Words(Cell(row.review)) + Words(Cell(row.actions))
  {
    var summary, review, actions := Cell(row.summary), Cell(row.review), Cell(row.actions);
    var joined := summary + " " + review + " " + actions;
    WordsStrip(joined);
    WordsJoin(summary + " " + review, actions);
    WordsJoin(summary, review);
    Strip(joined)
  }

  function RowScore(row: Row): real {
    Sentiment.Score(Some(Blob(row)))
  }

  /** The score of each row, in row order. */
  function Scores(rows: seq<Row>): (xs: seq<real>)
    ensures |xs| == |rows|
    ensures forall i :: 0 <= i < |rows| ==> xs[i] == RowScore(rows[i]) && -1.0 <= xs[i] <= 1.0
  {
    seq(|rows|, i requires 0 <= i < |rows| => RowScore(rows[i]))
  }

  function SumReals(xs: seq<real>): real {
    if xs == [] then 0.0 else xs[0] + SumReals(xs[1..])
  }

  lemma {:induction false} SumRealsBounds(xs: seq<real>, lo: real, hi: real)
    requires forall i :: 0 <= i < |xs| ==> lo <= xs[i] <= hi
    ensures |xs| as real * lo <= SumReals(xs) <= |xs| as real * hi
  {
    if xs != [] {
      SumRealsBounds(xs[1..], lo, hi);
      var m := (|xs| - 1) as real;
      assert |xs| as real * lo == m * lo + lo;
      assert |xs| as real * hi == m * hi + hi;
    }
  }

  /** The mean of values between `lo` and `hi` lies between them too. */
  lemma MeanBounds(xs: seq<real>, lo: real, hi: real)
    requires xs != []
    requires forall i :: 0 <= i < |xs| ==> lo <= xs[i] <= hi
    ensures lo <= SumReals(xs) / |xs| as real <= hi
  {
    SumRealsBounds(xs, lo, hi);
    QuotientBounds(SumReals(xs), |xs| as real, lo, hi);
  }

  /**
   * `df["sent_score"].mean()`; `None` where the dashboard shows no
   * sentiment figure. The mean lies in [-1, 1].
   */
  function AverageSentiment(rows: seq<Row>): (a: Option<real>)
    ensures a.None? <==> rows == []
    ensures a.Some? ==> -1.0 <= a.value <= 1.0
  {
    if rows == [] then None
    else
      var xs := Scores(rows);
      MeanBounds(xs, -1.0, 1.0);
      Some(SumReals(xs) / |xs| as real)
  }

  /** When no row leans negative, neither does the average. */
  lemma AverageSentimentNonNegative(rows: seq<Row>)
    requires rows != []
    requires forall i :: 0 <= i < |rows| ==> RowScore(rows[i]) >= 0.0
    ensures AverageSentiment(rows).value >= 0.0
  {
    MeanBounds(Scores(rows), 0.0, 1.0);
  }

  /** A row with no text at all scores zero. */
  lemma EmptyRowScoresZero(row: Row)
    requires row.review.None? && row.summary.None? && row.actions.None?
    ensures RowScore(row) == 0.0
  {
    assert IsBlank(Cell(row.summary) + " " + Cell(row.review) + " " + Cell(row.actions));
  }

  // ----------------------------------------------------------------- recent

  /**
   * `a` may be listed before `b` when sorting by parsed time, newest first:
   * a row with NaT sorts last.
   */
  predicate NewerOrSame(a: Row, b: Row) {
    b.parsed.None? || (a.parsed.Some? && InstantLe(b.parsed.value, a.parsed.value))
  }

  lemma NewerOrSameTotal(a: Row, b: Row)
    ensures NewerOrSame(a, b) || NewerOrSame(b, a)
  {
  }

  lemma NewerOrSameTransitive(a: Row, b: Row, c: Row)
    requires NewerOrSame(a, b) && NewerOrSame(b, c)
    ensures NewerOrSame(a, c)
  {
  }

  predicate NewestFirst(s: seq<Row>) {
    forall i, j :: 0 <= i < j < |s| ==> NewerOrSame(s[i], s[j])
  }

  /** Putting in front a row at least as new as the current first keeps the order. */
  lemma PrependNewest(x: Row, s: seq<Row>)
    requires NewestFirst(s)
    requires s == [] || NewerOrSame(x, s[0])
    ensures NewestFirst([x] + s)
  {
    var r := [x] + s;
    forall i, j | 0 <= i < j < |r|
      ensures NewerOrSame(r[i], r[j])
    {
      if i == 0 && j > 1 {
        NewerOrSameTransitive(x, s[0], s[j - 1]);
      }
    }
  }

  function InsertByTime(x: Row, s: seq<Row>): (r: seq<Row>)
    requires NewestFirst(s)
    ensures NewestFirst(r)
    ensures multiset(r) == multiset(s) + multiset{x}
    ensures |r| == |s| + 1
    ensures r[0] == x || (s != [] && r[0] == s[0])
  {
    if s == [] || NewerOrSame(x, s[0]) then
      PrependNewest(x, s);
      [x] + s
    else
      var rest := InsertByTime(x, s[1..]);
      NewerOrSameTotal(x, s[0]);
      assert s == [s[0]] + s[1..];
      PrependNewest(s[0], rest);
      [s[0]] + rest
  }

  /** `sort_values("ts_parsed", ascending=False)`: newest first, NaT last, the same rows. */
  function SortByTime(rows: seq<Row>): (r: seq<Row>)
    ensures NewestFirst(r)
    ensures multiset(r) == multiset(rows)
  {
    if rows == [] then []
    else
      assert rows == [rows[0]] + rows[1..];
      InsertByTime(rows[0], SortByTime(rows[1..]))
  }

  /**
   * The first `n` rows of a newest-first sequence: still newest first, drawn
   * from it, and no row after them is newer than any of them.
   */
  lemma TakeNewest(sorted: seq<Row>, n: int)
    requires NewestFirst(sorted) && 0 <= n <= |sorted|
    ensures NewestFirst(sorted[..n])
    ensures multiset(sorted[..n]) <= multiset(sorted)
    ensures forall x :: multiset(sorted[..n])[x] < multiset(sorted)[x] ==>
              forall i :: 0 <= i < n ==> NewerOrSame(sorted[i], x)
  {
    assert sorted == sorted[..n] + sorted[n..];
    assert multiset(sorted) == multiset(sorted[..n]) + multiset(sorted[n..]);
    forall x | multiset(sorted[..n])[x] < multiset(sorted)[x]
      ensures forall i :: 0 <= i < n ==> NewerOrSame(sorted[i], x)
    {
      assert x in multiset(sorted[n..]);
      var k :| 0 <= k < |sorted| - n && sorted[n..][k] == x;
      assert sorted[n + k] == x;
    }
  }

  /**
   * `.head(50)` of the sorted rows: at most fifty of the rows, newest first,
   * and no row left out is newer than any row shown.
   */
  function Recent(rows: seq<Row>): (r: seq<Row>)
    ensures |r| == Min(|rows|, RecentLimit)
    ensures NewestFirst(r)
    ensures multiset(r) <= multiset(rows)
    ensures forall x :: multiset(r)[x] < multiset(rows)[x] ==>
              forall i :: 0 <= i < |r| ==> NewerOrSame(r[i], x)
  {
    var sorted := SortByTime(rows);
    assert |sorted| == |multiset(sorted)| == |multiset(rows)| == |rows|;
    var n := Min(|sorted|, RecentLimit);
    TakeNewest(sorted, n);
    sorted[..n]
  }
}
