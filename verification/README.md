# Feedback pipeline: a Dafny model

This project models the record logic under a small customer-feedback app, as
pure functions over immutable values. The app has three Python files, each
with a Streamlit front end:

- **`ai_service.py`**: the enrichment client.
  - a deterministic stub that keeps up to 400 characters of the trimmed review and picks one of three action pairs by rating tier;
  - the plain-text parser used when a model reply is not JSON (first non-blank line as the summary, the next two joined with `" | "`);
  - `generate_ai_feedback`, which returns empty fields for a blank review and turns every failure into stub output.
- **`app.py`**: the public form.
  - `handle_submit` trims the review, rejects a blank one and then one over 600 characters, enriches it, and stores the record;
  - the `feedback` table is an append-only sequence with SQLite AUTOINCREMENT ids;
  - `fetch_recent_sql` reads it back newest first.
- **`admin_app.py`**: the dashboard over a table of rows.
  - three filters: an inclusive day range, a rating set that is skipped when empty, and a case-insensitive search of review, summary and actions;
  - the figures: count, mean rating, latest timestamp, rating distribution and daily mean trend;
  - the lexicon sentiment score and its mean;
  - the 50 most recent rows, newest first.

Modules follow the source:

- `Common`: `Option`, `Result` and arithmetic helpers.
- `Text`: the Python `str` operations the code uses.
- `Enrichment`: `ai_service.py`.
- `FeedbackStore` and `Submission`: `app.py`.
- `Sentiment`, `Tally`, `AdminRows`, `AdminFilters` and `AdminMetrics`: `admin_app.py`.

Python's `str.strip()` and `str.split()` use the full `str.isspace()` set.
`str.splitlines()` uses its full set of line boundaries.

Some things are inputs rather than modelled calls:

- the clock (the timestamp string);
- how the enrichment call ended (`LiveOutcome`, `EnrichCall`);
- whether the database write raised (`WriteResult`);
- what `json.loads` made of a reply (`JsonReading`).

The admin rows are an abstract sequence (`AdminRows.Row`). A row's rating
and its text cells may be missing (NaN in the CSV). The dashboard
reads `data.csv` while the form writes `feedback.db`, so the two are not
linked.

Two facts about the code shape the model:

- An empty rating selection keeps every row (`admin_app.py:193-194`).
- `handle_submit` does not check the rating's range. `Submission.Validate` therefore has no rating rejection.
- The date bounds are naive timestamps, while a table with a timestamp column parses it as tz-aware UTC (`admin_app.py:116`). See "## Findings".

## Model

| member | source | states |
|---|---|---|
| Enrichment.TierOf | ai_service.py:19-24 | The three tiers partition all ratings: at most 2, exactly 3, at least 4. |
| Enrichment.StubResponse | ai_service.py:15-25 | The response is "[stub]". The summary is the prefix of the trimmed review of length min(400, its length). The actions are the tier's two literal strings joined by the file's separator. |
| Enrichment.StubKeepsShortReview | ai_service.py:16-17 | A trimmed review of at most 400 characters becomes the summary whole. |
| Enrichment.StubDependsOnlyOnTier | ai_service.py:19-25 | Two ratings give the same stub for a review exactly when they are in the same tier. |
| Enrichment.NonBlankLines | ai_service.py:67 | The stripped non-blank lines are empty exactly when the reply is blank. Line j is the stripped j-th piece among the `splitlines()` pieces that do not strip to nothing, in order. |
| Enrichment.KeptAt | ai_service.py:67 | Filtering pieces by a non-empty image keeps, at position j, the image of the j-th piece whose image is non-empty. |
| Enrichment.FirstKeptIndex | ai_service.py:67-68 | The first kept line comes from the first piece that stripping does not empty, and every earlier piece strips to nothing. |
| Enrichment.FallbackSummary | ai_service.py:68 | A blank reply is its own summary. Otherwise the summary is the first non-blank line stripped, which is non-empty with no whitespace at either end. |
| Enrichment.FallbackActions | ai_service.py:69 | With fewer than two lines there are no actions. With two, the second line alone. With more, the second and third joined by a space, a vertical bar and a space. |
| Enrichment.FallbackParse | ai_service.py:66-69 | The response is the reply text, plus the summary and actions facts above, as one result. |
| Enrichment.ParseReply | ai_service.py:62-71 | The response is always the reply. A non-JSON reply goes to the fallback parser. A JSON object gives its "summary" and "actions" fields, each "" when absent. A JSON non-object uses the text as summary with no actions. |
| Enrichment.GenerateAiFeedback | ai_service.py:35-78 | A blank review gives three empty fields. A missing library gives the stub. Any other failure gives the stub summary and actions with response "[fallback due to error] " + message. A reply is parsed as `ParseReply` does, and the response is the reply text. It never fails. |
| Enrichment.AsWrittenAlwaysStub | ai_service.py:41-46 | As written, any non-blank review gets the stub summary and actions. Once the library imports, the response is the NameError fallback. |
| Enrichment.IntendedUsesReply | ai_service.py:41-71 | With the key read from a defined name, a plain-text reply is parsed by the fallback parser. |
| Text.Strip | app.py:133 | `strip()` is empty exactly for a blank text. Otherwise it neither starts nor ends with whitespace. It is never longer than its input. |
| Text.Trim | admin_app.py:253 | `strip(chars)` is empty exactly when every character is dropped; otherwise neither end is a dropped character. |
| Text.TrimIsSlice | admin_app.py:253 | What `strip(chars)` keeps is one contiguous run of the text, and only dropped characters lie outside it. |
| Text.StripLower | admin_app.py:198 | Stripping and lowercasing commute. |
| Text.Lower | admin_app.py:198 | Lowercasing keeps the length and maps each character by the ASCII lowercase mapping. |
| Text.LowerNoCapitals | admin_app.py:198 | A lowercased text holds no ASCII capital, and every other character is unchanged. |
| Text.Contains | admin_app.py:200-202 | `needle in hay` holds exactly when the needle occurs at some position. |
| Text.SplitOn | ai_service.py:67 | Cutting at separators gives one more piece than separators, none containing a separator. Putting the separators back between the pieces, in order, gives the text again, so each piece is the text between two consecutive separators. |
| Text.Words | admin_app.py:252 | `split()` gives the maximal runs without whitespace, in order: skip leading whitespace, take the longest run, carry on after it. Each word is non-empty and without whitespace, and their concatenation is the text minus its whitespace. |
| Text.SplitWordsAreRuns | admin_app.py:252 | Cutting at every whitespace character and dropping the empty pieces gives the maximal non-whitespace runs. |
| Text.WordsStrip | admin_app.py:246 | Stripping a text does not change its words. |
| Text.WordsJoin | admin_app.py:246 | The words of two texts joined by a space are the first text's words followed by the second's. |
| Text.WordsLower | admin_app.py:253 | The words of a lowercased text are the lowercased words of the text. |
| Text.SingleWord | admin_app.py:253 | A non-empty text without whitespace splits into exactly itself. |
| Text.LexLeTransitive | admin_app.py:215 | String comparison is transitive, so a running maximum is the maximum. |
| FeedbackStore.Insert | app.py:66-74 | A write succeeds exactly when it does not raise and ids remain. It then appends one row carrying the record, with an id above every earlier one, and leaves earlier rows unchanged. A raised write fails with its message. |
| FeedbackStore.LimitCount | app.py:80 | `LIMIT n` lets min(n, rows) through, and all rows for a negative n. |
| FeedbackStore.FetchRecent | app.py:77-85 | The result is the last rows in reverse order, with ids strictly descending. Every row left out has a smaller id than every row returned. |
| FeedbackStore.FetchAfterInsert | app.py:66-85 | After an insert, the recent list is the new row followed by the previous recent list, one shorter. |
| Submission.Validate | app.py:133-142 | A blank review is rejected as empty. A non-blank review over 600 characters once trimmed is rejected as too long. Otherwise the trimmed text, of 1 to 600 characters, is accepted. |
| Submission.Assemble | app.py:146-159 | The record carries the trimmed review, the rating and the timestamp. A failed enrichment leaves summary and actions empty. |
| Submission.HandleSubmit | app.py:128-177 | A rejection changes only the error message and stores nothing. A failed write stores nothing, shows "Failed to save feedback: " + message, and keeps the review field. Success appends one row, clears the review, shows its summary and actions, and records the timestamp. |
| Submission.StoredSubmission | app.py:147-166 | A stored submission holds the trimmed review and the rating and gets the next id. An enrichment exception still stores it, with empty summary and actions and the error message kept. |
| Submission.CheckoutCrashScenario | app.py:147-166 | A one-star "Checkout crashed on payment" with the library missing is stored with the whole review as summary, the escalation actions, and the next id. |
| Sentiment.Hits | admin_app.py:254-255 | A lexicon never matches more tokens than there are. |
| Sentiment.LexiconHits | admin_app.py:247-255 | Positive plus negative hits never exceed the token count, because the lexicons are disjoint. |
| Sentiment.Ratio | admin_app.py:256 | (pos - neg) / max(1, n) lies in [-1, 1] and has the sign of pos - neg. It is 1 when every one of at least one token is positive, and -1 when every one is negative. |
| Sentiment.Score | admin_app.py:250-256 | A non-string or blank text scores 0. Every score lies in [-1, 1] and is positive (negative) exactly when positive hits outnumber (are outnumbered by) negative hits. A text whose tokens are all positive (all negative) scores 1 (-1). |
| Sentiment.Normalize | admin_app.py:253 | A normalized word is empty exactly when the word is all punctuation. Otherwise it neither starts nor ends with one of the twelve punctuation characters, and it holds no ASCII capital. |
| Sentiment.Tokens | admin_app.py:252-253 | One token per whitespace-separated word, in order, each the normalized form of its word. |
| Sentiment.NormalizeIgnoresCase | admin_app.py:253 | A token is normalized the same whatever the case of the word it came from. |
| Sentiment.ScoreIgnoresCase | admin_app.py:250-256 | Lowercasing a text does not change its score: words are matched against the lexicons case-insensitively. |
| Sentiment.SingleWordScore | admin_app.py:250-256 | A one-word text scores 1 if the stripped, lowercased word is in the positive lexicon, -1 if it is in the negative lexicon, and 0 otherwise. |
| Tally.Group | admin_app.py:225 | Grouping by key gives strictly ascending, occupied buckets, one per distinct key. Each holds the number and the sum of that key's entries, and the counts add up to the number of entries. |
| Tally.AddLookup | admin_app.py:235 | Adding an entry changes only its key's bucket, by one entry and its value. |
| AdminRows.Select | admin_app.py:185 | `df[mask]` is an order-preserving subsequence of the rows that satisfy the mask, each as often as in the input. |
| AdminRows.SelectsCompose | admin_app.py:185-188 | Two selections in a row select by both conditions. |
| AdminFilters.FilterDates | admin_app.py:179-190 | The date stage selects exactly the rows passing the bound or bounds that apply. A start-only selection applies only the start bound. A missing timestamp fails both bounds. |
| AdminFilters.FilterDatesAsWritten | admin_app.py:179-190 | As written, a tz-aware column (`ts_parsed` as line 116 makes it) keeps every row, because the comparison raises and the stage swallows the error. A naive column is filtered like `FilterDates`. |
| AdminFilters.AsWrittenKeepsEarlierDay | admin_app.py:184-190 | A row from the day before a one-day window survives the stage as written but is dropped by the intended stage. |
| AdminFilters.DateWindowIsWholeDays | admin_app.py:184-188 | For timestamps stored to the second, the window keeps exactly the days from start to end inclusive. |
| AdminFilters.OneDayWindow | admin_app.py:184-188 | A one-day window keeps 23:59:59 of that day and drops 00:00:01 of the next. |
| AdminFilters.FilterRatings | admin_app.py:193-194 | An empty selection keeps every row; otherwise exactly the rows whose rating is present and selected, in order. A missing rating is never selected. |
| AdminFilters.FilterText | admin_app.py:197-204 | A blank query keeps every row. Otherwise it keeps exactly the rows whose lowercased review, summary or actions contains the stripped, lowercased query, with missing cells read as "". |
| AdminFilters.TextFilterIgnoresQueryCase | admin_app.py:197-204 | The search gives the same rows for a query and its lowercase form. |
| AdminFilters.ApplyFilters | admin_app.py:177-204 | The three stages together keep exactly the rows that pass all three, in order and with multiplicity. |
| AdminFilters.OnlyFiveStar | admin_app.py:193-194 | Selecting only rating 5 returns only rows whose rating is present and equal to 5. |
| AdminMetrics.Headlines | admin_app.py:209-218 | The total is 0 exactly when the mean rating and the latest submission are dashes. It equals the distribution's counts plus the rows without a rating. The mean is NaN exactly for a non-empty table whose distribution is empty. |
| AdminMetrics.MeanRating | admin_app.py:211 | The mean rating is a dash exactly for an empty table, and NaN exactly for a non-empty table with no rating present. Missing ratings are skipped. |
| AdminMetrics.MeanRatingBounds | admin_app.py:211 | When the mean is a number and every present rating lies between lo and hi, so does the mean. |
| AdminMetrics.Latest | admin_app.py:214-218 | The latest timestamp is absent exactly for an empty table. Otherwise it is one of the rows' timestamps and no row's timestamp compares above it. |
| AdminMetrics.Distribution | admin_app.py:225 | One pair per rating present, ratings strictly ascending, each count the number of rows with that rating. Every rating present is listed. The counts plus the rows without a rating add up to the row count. |
| AdminMetrics.Trend | admin_app.py:232-235 | One point per day on which some timestamp parsed, days strictly ascending, and every such day is listed. Each point is the mean of that day's present ratings, or NaN when the day has none. |
| AdminMetrics.TrendPoint | admin_app.py:232-235 | The day of each bucket has parsed rows, and its point is the mean of that day's present ratings. |
| AdminMetrics.ParsedDayOnTrend | admin_app.py:234-235 | Every row whose timestamp parsed puts its day on the trend. If it also has a rating, that day's point is a number. |
| AdminMetrics.UnparsedRowIgnored | admin_app.py:234-235 | A row whose timestamp did not parse does not change the trend. |
| AdminMetrics.AverageSentiment | admin_app.py:258-259 | The average sentiment is absent exactly for an empty table and otherwise lies in [-1, 1]. |
| AdminMetrics.AverageSentimentNonNegative | admin_app.py:258-259 | If no row scores below 0, the average is not below 0. |
| AdminMetrics.EmptyRowScoresZero | admin_app.py:246-251 | A row without review, summary or actions scores 0. |
| AdminMetrics.Blob | admin_app.py:246 | The words of the joined and stripped text are the summary's words, then the review's, then the actions', with missing cells read as "". |
| AdminMetrics.InsertByTime | admin_app.py:268 | Inserting into a newest-first sequence keeps it newest first (missing timestamps last) and adds exactly that row. |
| AdminMetrics.SortByTime | admin_app.py:268 | The sort is newest first, missing timestamps last, and a permutation of the rows. |
| AdminMetrics.Recent | admin_app.py:268 | The list holds min(50, rows) of the rows, newest first. No row left out is newer than any row shown. |

## Left out

- Streamlit rendering, widgets, CSS, session-state plumbing, auto-refresh, caching and reruns: UI framework behaviour.
- The admin password login: a single string comparison in UI state.
- SQLite and CSV I/O. The tables are in-memory sequences, and a fresh database is `FeedbackStore.EmptyStore`.
- The generative-AI library call and `json.loads`: foreign code. Their outcomes are inputs.
- `is_real_client_available`: it only reports whether a library imports; the import outcome is an input.
- Timestamp parsing with `pd.to_datetime`: a parsed timestamp is an input (`Instant`, or `None` for NaT).
- AdminFilters.FilterDates models the date stage as evidently intended: both sides compared on one clock. As written, the stage raises on every table with a timestamp column and keeps every row; `AdminFilters.FilterDatesAsWritten` models that (see "## Findings").
- Rounding of the displayed mean rating and sentiment (`round(..., 2)`, `round(..., 4)`): means are exact reals.
- AdminFilters.FilterText: `str.contains` defaults to regular-expression matching. The model tests for a literal substring; a query holding regex metacharacters matches differently, or raises.
- Text.Lower: lowercases ASCII letters only, not full Unicode case mapping.
- AdminMetrics.Latest: timestamps are compared as strings, as the source does. A missing timestamp cell, which pandas skips, is not modelled.
- AdminMetrics.SortByTime: pandas' default sort is not stable. The contract states only the order and the permutation, which any pandas result also meets; the model's tie order is one choice among those.
- Submission.HandleSubmit: `int(...)` on the rating is not modelled; the rating is already an integer.
- A review that is `None` (`(review or "")`) is not modelled; reviews are strings.

## Findings

| source | as written | input that shows it | evidently intended | confidence | as-written member | corrected member |
|---|---|---|---|---|---|---|
| ai_service.py:45 | The live path reads `GOOGLE_API_KEY`, a name never defined (only `GEMINI_API_KEY` is, at line 13), so the NameError is caught at line 75 and the stub is returned. | Any non-blank review with `google.generativeai` installed returns the stub summary and actions with response "[fallback due to error] name 'GOOGLE_API_KEY' is not defined". | Read the defined key and use the model's reply. | not executed | Enrichment.AsWrittenAlwaysStub | Enrichment.IntendedUsesReply |
| admin_app.py:184-190 | `ts_parsed` is tz-aware UTC (line 116), but `start_dt` and `end_dt` are naive. Ordering the two raises TypeError at line 185, and the `except Exception: pass` at line 189 swallows it, so the date filter never removes a row. | A table with a row stamped 2024-01-01T10:00:00Z and the range 2024-01-02 to 2024-01-02: the row is still shown. | Compare the parsed timestamps with the chosen whole days, keeping only rows inside the range. | not executed | AdminFilters.AsWrittenKeepsEarlierDay | AdminFilters.FilterDates |
