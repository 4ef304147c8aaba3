# OpenStreetMap changeset dashboard — verified model

The dashboard is a small Streamlit page over yearly Parquet files of
OpenStreetMap changesets. It builds SQL texts, runs them on an embedded
DuckDB engine, and shows the results. This project models the pure logic
around that engine and proves properties of it:

- **Delta formatting** (`get_delta`). The change between two counts is
  rendered the way Python's `{:+,d}` does: an explicit sign, then digits
  grouped in threes by commas. It is absent when there is no previous
  count. `get_delta` is defined twice, identically, in utils.py and
  main.py; it is modelled once, as `Utils.GetDelta`.
- **Locations** (`stringify`, `paths_for_years`). A URL template with a
  `{year}` placeholder is filled in for each year of an inclusive range,
  and each result is quoted as an SQL string literal.
- **Query texts.** These are the range, year-statistics and editor-breakdown
  queries. Each is a triple-quoted f-string that embeds the quoted
  location and is then stripped.
- **Editor classification.** The `CASE` expression maps the free-text
  `created_by` tag to an editor name. The first matching `LIKE` pattern
  wins, and in `LIKE` both `%` and `_` are wildcards. An unmatched value
  is kept, and NULL becomes `<unknown>`.
- **Breakdown.** `GROUP BY` editor, then `sum`/`count`, then
  `ORDER BY 2 DESC`, then `LIMIT 25`.
- **Page rules.** The selectable years are 2005..2023, with 2023 as the
  default. The previous year is absent for 2005, in which case the
  all-absent statistics record makes every delta absent. The four
  metrics follow from the statistics.
- **Column labels.** `replace("_", " ").title()` is applied before display.

The model is purely functional, as the modelled code is: datatypes,
functions and lemmas, with no classes or loops. The engine is represented
by what the queries compute. The statistics query becomes `count(*)`,
`count(distinct uid)` and two `sum`s over the changesets of the year's
file, and the editor query becomes the breakdown over that file. The
cached `year_stats` enters the page as a function parameter.

Modules:

- `Wrappers`: the `Option` type.
- `Decimal`: decimal digits, `{:,d}` and `{:+,d}`, and their inverse.
- `Template`: `str.format` restricted to `{year}`, `{{` and `}}`.
- `PyRange`, `Utils`: `range`, `get_delta`, `stringify` and `paths_for_years`.
- `SqlText`: `str.strip`.
- `Queries`: the three query texts.
- `Like`, `Editors`: SQL `LIKE` and the `CASE`.
- `Breakdown`: group, sort and limit.
- `Records`: the result records.
- `Labels`: `replace` and `title`.
- `Dashboard`: the page rules.

## Model

| member | source | states |
|---|---|---|
| Utils.GetDelta | utils.py:1-4 | Absent exactly when the previous value is absent. Otherwise: `+` when current >= previous, `-` otherwise; the rest is well grouped; dropping the commas gives the digits of the absolute difference; parsing the text back gives the difference |
| Decimal.FormatSigned | utils.py:4 | `{:+,d}`: at least two characters, sign by the value's sign, digits grouped in threes, commas removed leave the canonical digits of the magnitude; non-negative values are `+` followed by the `{:,d}` rendering |
| Decimal.FormatSignedRoundTrip | utils.py:4 | Reading a `{:+,d}` rendering back (sign, commas dropped, digits) gives the number |
| Decimal.GroupWellGrouped | utils.py:4 | Grouping digits gives a leading group of 1-3 digits, then groups of exactly three, separated by single commas; the length grows by one comma per full group |
| Decimal.GroupStripCommas | utils.py:4 | Removing the commas from a grouping gives the digits back |
| Decimal.Digits | utils.py:4 | The decimal digits of a natural number have no leading zero, and are "0" exactly for zero |
| Decimal.ParseDigits | utils.py:4 | Reading the digits of `n` gives `n` |
| Decimal.DigitsParse | utils.py:4 | Canonical digit strings are exactly the renderings of their values |
| Decimal.IntTextInjective | main.py:74 | Different integers render to different decimal texts |
| PyRange.Range | utils.py:12 | `range(lo, hi)` has `hi - lo` elements (none when `lo >= hi`), the i-th being `lo + i` |
| Template.FormatPrefix | utils.py:12 | `format` copies brace-free text unchanged in front of the rest of the result |
| Template.FormatSinglePlaceholder | utils.py:12 | A template with one `{year}` and no other brace formats to the prefix, the value and the suffix |
| Utils.Stringify | utils.py:7-8 | The quoted path is two characters longer, starts and ends with `'`, and holds the path in between |
| Utils.QuotedPathsSpec | utils.py:12 | The comprehension fails exactly when the template is malformed and there is a year; otherwise the i-th element is the quoted formatting for the i-th year |
| Utils.PathsForYearsSpec | utils.py:11-12 | An empty range gives `[]`; otherwise one path per year of `start..end`, the i-th for year `start + i`; it fails exactly when the template is malformed |
| Utils.PathsForYearsSingle | utils.py:11-12 | With one `{year}` placeholder, the i-th path is the quoted template filled with `start + i`, and all paths are distinct |
| Utils.FilledPathInjective | utils.py:12 | Different years give different quoted locations |
| SqlText.StripStart | main.py:61 | Removes exactly the leading whitespace |
| SqlText.StripEnd | main.py:61 | Removes exactly the trailing whitespace |
| SqlText.StripFramed | main.py:56-61 | Stripping a text framed by the f-string's two newlines gives the text, when it neither starts nor ends with whitespace |
| Queries.QueryText | main.py:56-61 | The stripped query is the select list, `FROM `, the quoted location and the tail |
| Queries.MinMaxQuery | main.py:56-61 | The range query reads the wildcard location, with `*` in place of the year |
| Queries.YearStatsQuery | main.py:68-75 | The statistics query reads the quoted location of the given year |
| Queries.EditorsQuery | main.py:82-117 | The editor query is the `CASE` select list, then the quoted location of the year, then `GROUP BY 1`, `ORDER BY 2 DESC`, `LIMIT 25` |
| Queries.WhenLinesOrder | main.py:84-108 | The `WHEN` arms appear in the text in rule order |
| Queries.EditorTailLimit | main.py:116 | The `LIMIT` in the text is the limit the breakdown applies |
| Queries.YearStatsQueryInjective | main.py:66-75 | Different years have different statistics query texts |
| Queries.EditorsQueryInjective | main.py:80-117 | Different years have different editor query texts |
| Like.LikePrefix | main.py:85-108 | `s LIKE p%`, for a `%`-free `p`, holds exactly when `s` is at least as long as `p` and agrees with it wherever `p` has no `_` |
| Editors.CaseLabelFirstMatch | main.py:84-109 | The earliest firing arm gives the label, whatever later arms say |
| Editors.CaseLabelNoMatch | main.py:109 | With no firing arm, the label is the value itself, or `<unknown>` for NULL |
| Editors.EditorSpec | main.py:84-110 | NULL gives `<unknown>`; otherwise the first firing rule's name, else the value unchanged; the label is empty only for an empty tag value |
| Editors.UnderscoreIsWildcard | main.py:99-101 | `Every_Door%` also matches "Every Door …" and gives `EveryDoor`; `bulk_upload.py%` also matches "bulk-upload.py …" |
| Breakdown.Tag | main.py:84-110 | Each changeset is paired with the `CASE` label of its `created_by` tag (NULL when the tag is missing) and its object changes |
| Breakdown.SortDescSpec | main.py:115 | The sort orders rows by non-increasing object changes and is a permutation |
| Breakdown.GroupsDistinct | main.py:114 | `GROUP BY 1` gives one row per label, with no label twice |
| Breakdown.AggregateShape | main.py:114-116 | Exactly min(number of distinct labels, 25) rows, sorted non-increasingly by object changes, editors distinct |
| Breakdown.AggregateRows | main.py:111-114 | Every row holds, for its editor, the sum of object changes and the count of changesets, and that editor occurs in the data |
| Breakdown.AggregateKeepsTop | main.py:115-116 | A label cut by the limit has no more object changes than any row kept |
| Breakdown.AggregateComplete | main.py:114-116 | With at most 25 labels, every label has its row |
| Labels.TitleSpec | main.py:178 | `title()`: a cased letter is lower case when the character immediately before it is cased, and upper case otherwise (at the start, or after a space, digit or other uncased character); other characters are unchanged |
| Labels.HumaniseSpec | main.py:178 | A label keeps its length and has no `_`; each `_` becomes a space, and the letters are title-cased with underscores as word breaks |
| Labels.HumaniseIdempotent | main.py:178 | Humanising a humanised label changes nothing |
| Labels.HumaniseSplit | main.py:178 | The words on either side of an `_` are humanised separately and joined by a space |
| Labels.HumaniseSnakeCase | main.py:178 | A name made of lower-case words joined by `_` is shown as the capitalised words joined by spaces |
| Dashboard.ObjectChangesLabel | main.py:178 | `number_of_object_changes` is displayed as `Number Of Object Changes` |
| Dashboard.Relabel | main.py:178 | Renaming the columns leaves the query and the rows unchanged; each new column is the humanised old one, so it keeps its length and loses its underscores |
| Dashboard.EditorTableObjectChangesLabel | main.py:177-178 | The editor table for any year shows its second column as `Number Of Object Changes` |
| Dashboard.DefaultYear | main.py:142 | The preselected year is the last option, 2023 |
| Dashboard.YearOptionsSpec | main.py:141 | The options are 19 years, 2005 + i at position i, and contain exactly the years 2005..2023 |
| Dashboard.PreviousYear | main.py:143 | Present exactly when the selection is after 2005, and then one less |
| Dashboard.PreviousYearSelectable | main.py:141-143 | For a selectable year the previous year is absent exactly for the first option, and selectable otherwise |
| Dashboard.RangeStats | main.py:54-63 | The range record pairs the range query with the two timestamps it returned |
| Dashboard.UidsBound | main.py:71 | Distinct users are at most the changesets, and at least one when there is a changeset |
| Dashboard.SqlSum | main.py:72-73 | `sum` is NULL over no rows and the total otherwise |
| Dashboard.YearCounts | main.py:70-73 | The four counts over a year's changesets: the row count, the number of distinct uids (at most the rows, at least one when there is a row), and the SQL `sum`s of `num_changes` and `comments_count`, absent exactly without rows; complete exactly when there are rows |
| Dashboard.YearStats | main.py:66-77 | The record pairs the year's query with its counts. The changeset count is the number of rows; the users are the number of distinct uids, at most the number of rows and at least one for a non-empty year; the two counts are SQL `sum`s of `num_changes` and `comments_count`, absent exactly for an empty year, so the record is complete exactly when the year has changesets |
| Dashboard.YearStatsQueryDiffers | main.py:147-149 | The records of two different years carry different query texts: the text determines the year |
| Dashboard.PreviousStats | main.py:148-151 | No previous year gives the all-absent record, otherwise that year's statistics |
| Dashboard.MetricOf | main.py:155-159 | The value, commas removed, is the decimal text of the count and is well grouped for counts; the delta is absent exactly without a previous count and reads back as the difference |
| Dashboard.Metrics | main.py:154-174 | Four metrics with their captions in order, each showing its current count; each delta is present exactly when the previous count is, and reads back as the change |
| Dashboard.YearMetricsFirstYear | main.py:143-173 | For 2005 (or earlier) every delta is absent |
| Dashboard.YearMetricsLaterYear | main.py:143-173 | After 2005 each delta is present exactly when the year before has that count, and reads back as the change from it |
| Dashboard.EditorsResult | main.py:80-119 | The editor result pairs the year's editor query with the breakdown of the year's changesets, under the query's column names |

## Left out

- Running the queries. The DuckDB connection, `execute`, `fetchone` and `.df()` reach a remote object store through a foreign engine. The model computes what the statistics and editor queries compute, over the changesets of a year given as a parameter. The range query's two timestamps are a parameter.
- `fetch_one` and `fetch_df` (main.py:42-51) are not used by the page.
- `st.cache` and `lru_cache`. These cache I/O results. The `lru_cache` the page relies on is keyed by the `year` argument, or by nothing. The text-keyed `st.cache` only wraps `fetch_one` and `fetch_df`, which the page does not use. The injectivity lemmas show that a query text determines its year; no cache the page uses depends on that.
- Streamlit rendering: markdown, expanders, `st.metric` layout, `st.dataframe`, and the `isoformat` display of the timestamps.
- pandas frames. A frame is its column names plus its rows.
- Python's `str.format` in general. Only `{year}`, `{{` and `}}` are modelled. Any other brace, field, conversion or format spec is modelled as an error.
- `str.strip` and `str.title` over non-ASCII text. Whitespace is the ASCII set Python strips, and the cased characters are `A`-`Z` and `a`-`z`.
- NULL `uid` and NULL `num_changes` in a changeset are not modelled. The columns are integers, and the object changes are natural numbers.
- The 64-bit `bigint` cast of the object-change sum is not modelled; integers are unbounded.
- Breakdown.SortDescSpec: the order of rows with equal object changes is that of a stable insertion sort, while `ORDER BY 2 DESC` leaves ties unordered. The other breakdown lemmas do not depend on the tie order.
- Dashboard.Metrics, Dashboard.YearMetrics: require the selected year's record to be complete. For a year without changesets the two sums are NULL, and rendering `None` with `{:,d}` (main.py:167) raises `TypeError`. That error path is not modelled; `YearStats` states exactly when the record is complete.
- Dashboard.YearMetrics: states only that there are four metrics. Its first-year and later-year behaviour is stated by `YearMetricsFirstYear` and `YearMetricsLaterYear`, for any `year_stats`.
- Dashboard.ObjectChangesLabel: of the three editor-table columns, only the object-changes label is stated as a literal. `HumaniseSnakeCase` covers all snake_case names of lower-case words.
- The locale, new-vs-returning-user, trend and sample views described for later versions of the dashboard do not exist in this main.py and are not modelled.
