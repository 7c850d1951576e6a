/**
 * The filter block of admin_app.py: an inclusive date window, a rating
 * selection that is skipped when empty, and a case-insensitive search over
 * review, summary and actions, applied in that order.
 */
module AdminFilters {
  import opened Common
  import opened Text
  import opened AdminRows

  /** 23:59:59 in nanoseconds since midnight: the end date's upper bound. */
  const EndOfDay: int := 86_399 * NanosPerSecond

  /**
   * What the date picker returned. A picker caught half-way through a
   * range selection yields only a start date; the end-date lookup then
   * raises and is swallowed, after the start bound has been applied.
   */
  datatype DateSelection = NoDates | StartOnly(start: int) | Range(start: int, end: int)

  /** `ts_parsed >= start 00:00:00`; a missing timestamp compares false. */
  predicate OnOrAfter(row: Row, start: int) {
    row.parsed.Some? && InstantLe(Instant(start, 0), row.parsed.value)
  }

  /** `ts_parsed <= end 23:59:59`; a missing timestamp compares false. */
  predicate OnOrBefore(row: Row, end: int) {
    row.parsed.Some? && InstantLe(row.parsed.value, Instant(end, EndOfDay))
  }

  predicate PassesDates(row: Row, dates: DateSelection) {
    match dates
    case NoDates => true
    case StartOnly(start) => OnOrAfter(row, start)
    case Range(start, end) => OnOrAfter(row, start) && OnOrBefore(row, end)
  }

  function FilterDates(rows: seq<Row>, dates: DateSelection): (r: seq<Row>)
    ensures SelectsExactly(r, rows, row => PassesDates(row, dates))
  {
    match dates
    case NoDates =>
      SelectsAll(rows, row => PassesDates(row, dates));
      rows
    case StartOnly(start) =>
      Select(rows, row => OnOrAfter(row, start))
    case Range(start, end) =>
      var mid := Select(rows, row => OnOrAfter(row, start));
      var r := Select(mid, row => OnOrBefore(row, end));
      SelectsCompose(r, mid, rows, row => OnOrAfter(row, start), row => OnOrBefore(row, end),
                     row => PassesDates(row, dates));
      r
  }

  /**
   * How `parse_timestamps` typed the `ts_parsed` column: tz-aware UTC when
   * the table has a timestamp column and coercing it did not raise, naive
   * (all NaT) otherwise.
   */
  datatype StampZone = Aware | Naive

  /**
   * The date stage as the source is written. Its bounds are naive
   * timestamps, and ordering a tz-aware column against a naive timestamp
   * raises TypeError at the first comparison; the stage's handler swallows
   * it, so every row stays. Only a naive column is filtered.
   */
  function FilterDatesAsWritten(rows: seq<Row>, dates: DateSelection, zone: StampZone): (r: seq<Row>)
    ensures zone == Aware ==> r == rows
    ensures zone == Naive ==> SelectsExactly(r, rows, row => PassesDates(row, dates))
  {
    if zone == Aware then rows else FilterDates(rows, dates)
  }

  /**
   * As written, a tz-aware table keeps a row from the day before a one-day
   * window, which the intended stage drops.
   */
  lemma AsWrittenKeepsEarlierDay(row: Row, day: int)
    requires row.parsed == Some(Instant(day - 1, 0))
    ensures FilterDatesAsWritten([row], Range(day, day), Aware) == [row]
    ensures FilterDates([row], Range(day, day)) == []
  {
  }

  /**
   * For timestamps stored to the second, the window is exactly the days
   * from `start` to `end`, both included.
   */
  lemma DateWindowIsWholeDays(row: Row, start: int, end: int)
    requires row.parsed.Some? && WellFormed(row.parsed.value)
    requires row.parsed.value.nanos % NanosPerSecond == 0
    ensures PassesDates(row, Range(start, end)) <==> start <= row.parsed.value.day <= end
  {
    var t := row.parsed.value;
    var secs := t.nanos / NanosPerSecond;
    assert t.nanos == secs * NanosPerSecond;
    assert secs < 86_400;
    assert t.nanos <= EndOfDay;
  }

  /**
   * An empty rating selection keeps every row; otherwise `isin` keeps the
   * rows whose rating is selected, and a missing rating is never selected.
   */
  predicate PassesRatings(row: Row, selected: set<int>) {
    selected == {} || (row.rating.Some? && row.rating.value in selected)
  }

  function FilterRatings(rows: seq<Row>, selected: set<int>): (r: seq<Row>)
    ensures SelectsExactly(r, rows, row => PassesRatings(row, selected))
  {
    if selected == {} then
      SelectsAll(rows, row => PassesRatings(row, selected));
      rows
    else
      Select(rows, (row: Row) => PassesRatings(row, selected))
  }

  /** A missing text cell searches as the empty string. */
  function Cell(v: Option<string>): string {
    v.GetOr([])
  }

  /** `needle` (already lowercased) occurs in the lowercased review, summary or actions. */
  predicate MatchesQuery(row: Row, needle: string) {
    || Contains(Lower(Cell(row.review)), needle)
    || Contains(Lower(Cell(row.summary)), needle)
    || Contains(Lower(Cell(row.actions)), needle)
  }

  /** A blank query keeps every row; otherwise the trimmed, lowercased query must occur. */
  predicate PassesText(row: Row, query: string) {
    IsBlank(query) || MatchesQuery(row, Lower(Strip(query)))
  }

  function FilterText(rows: seq<Row>, query: string): (r: seq<Row>)
    ensures SelectsExactly(r, rows, row => PassesText(row, query))
  {
    if Strip(query) == [] then
      SelectsAll(rows, row => PassesText(row, query));
      rows
    else
      Select(rows, (row: Row) => PassesText(row, query))
  }

  /** The search ignores the case of the query's letters. */
  lemma TextFilterIgnoresQueryCase(rows: seq<Row>, query: string)
    ensures FilterText(rows, Lower(query)) == FilterText(rows, query)
  {
    StripLower(query);
    LowerIdempotent(Strip(query));
    assert Strip(Lower(query)) == [] <==> Strip(query) == [];
    forall row: Row
      ensures PassesText(row, Lower(query)) <==> PassesText(row, query)
    {
    }
    if Strip(query) != [] {
      SelectSame(rows, (row: Row) => PassesText(row, Lower(query)), (row: Row) => PassesText(row, query));
    }
  }

  predicate Selected(row: Row, dates: DateSelection, ratings: set<int>, query: string) {
    PassesDates(row, dates) && PassesRatings(row, ratings) && PassesText(row, query)
  }

  /**
   * The three stages in the source's order. The result keeps exactly the
   * rows that pass all three, each as often as it occurs, in the order of
   * the input.
   */
  function ApplyFilters(rows: seq<Row>, dates: DateSelection, ratings: set<int>, query: string): (r: seq<Row>)
    ensures SelectsExactly(r, rows, row => Selected(row, dates, ratings, query))
  {
    var byDate := FilterDates(rows, dates);
    var byRating := FilterRatings(byDate, ratings);
    var r := FilterText(byRating, query);
    SelectsCompose(byRating, byDate, rows, row => PassesDates(row, dates), row => PassesRatings(row, ratings),
                   row => PassesDates(row, dates) && PassesRatings(row, ratings));
    SelectsCompose(r, byRating, rows, row => PassesDates(row, dates) && PassesRatings(row, ratings),
                   row => PassesText(row, query), row => Selected(row, dates, ratings, query));
    r
  }

  /** Selecting the single rating 5 returns only five-star rows, whatever the other filters. */
  lemma OnlyFiveStar(rows: seq<Row>, dates: DateSelection, query: string)
    ensures forall i :: 0 <= i < |ApplyFilters(rows, dates, {5}, query)| ==> ApplyFilters(rows, dates, {5}, query)[i].rating == Some(5)
  {
    var r := ApplyFilters(rows, dates, {5}, query);
    assert forall i :: 0 <= i < |r| ==> Selected(r[i], dates, {5}, query);
  }

  /**
   * Of a row at 23:59:59 on the chosen day and one a second past the next
   * midnight, a one-day window keeps just the first.
   */
  lemma OneDayWindow(day: int, late: Row, early: Row)
    requires late.parsed == Some(Instant(day, EndOfDay))
    requires early.parsed == Some(Instant(day + 1, NanosPerSecond))
    ensures FilterDates([late, early], Range(day, day)) == [late]
  {
    assert OnOrAfter(late, day) && OnOrBefore(late, day);
    assert OnOrAfter(early, day) && !OnOrBefore(early, day);
    assert Select([early], row => OnOrAfter(row, day)) == [early];
    assert Select([late, early], row => OnOrAfter(row, day)) == [late, early];
    assert Select([early], row => OnOrBefore(row, day)) == [];
  }
}
