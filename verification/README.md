# TVAnalitycs core, modelled in Dafny

TVAnalitycs is a streaming-analytics dashboard. An Excel workbook is loaded by
`etl.py`, and the dataset is then analysed by `analytics.py`. This project
models the deterministic core of both files and proves properties about it.

From `etl.py` it models three things:

- **Tab selection.** `normalize_sheet_name` prefers a case-insensitive exact
  match, then falls back to a substring match (module `Sheets`).
- **Header normalisation.** `normalize_columns` strips and lowercases every
  header. It then scans the 12-entry alias table and renames the first alias
  of each entry that is present (module `Schema`). Worked examples (lemmas)
  on the repository's sample header rows are in module `SchemaExamples`.
- **`load_data`.** It picks the `dataset`/`datos` tab and the optional
  `instrucciones` tab. It raises when there is no dataset tab, or when a
  column it selects by name is duplicated. It derives `completion_rate`, then
  converts the metric columns to numbers, with missing values filled by 0
  (module `Loader`).

From `analytics.py` it models four queries over an event frame. Each row of
the frame is a partial map from column name to value (modules `Events` and
`Grouping`):

- the content ranking (`Ranking`);
- the Segment Affinity Index (`Affinity`);
- the recurrence metrics (`Recurrence`);
- the omnichannel device ratio (`Devices`).

Selecting a column that is not there raises `KeyError`. That case is modelled
as a `Failure`. The missing-value conventions follow pandas:

- `groupby` drops missing keys;
- `sum` skips missing values;
- `nunique` ignores missing values;
- a mean over nothing is `NaN`.

## Model

| member | source | states |
|---|---|---|
| Text.Strip | etl.py:38 | `strip()` returns a contiguous infix of the header that neither starts nor ends with whitespace, and everything cut off is whitespace |
| Text.LowerChar | etl.py:38 | an upper-case Latin-1 letter becomes its lower-case letter, 0x20 code points further on; every other character is unchanged; the result is never upper-case |
| Text.Lower | etl.py:6-12 | the lowercase form has as many characters as the text (what each character becomes is stated by `Text.LowerOfLower`) |
| Text.LowerOfLower | etl.py:38 | lowercasing replaces each upper-case letter by its lower-case letter and keeps every other character; it leaves no upper-case letter, is idempotent, and is the identity on already-lowercase text |
| Text.ContainsIff | etl.py:12 | the `in` substring test holds exactly when the needle occurs at some offset |
| Sheets.SheetIndex | etl.py:4-14 | the chosen tab contains the target; a case-insensitive exact match anywhere beats every partial match, and the first exact match is taken; otherwise the first tab containing the target is taken; nothing is found exactly when no tab contains the target |
| Sheets.NormalizeSheetName | etl.py:4-14 | the returned name is one of the tab names and contains the target case-insensitively; `None` exactly when no tab contains it |
| Sheets.ExactBeatsEarlierPartial | etl.py:7-13 | an exact match later in the workbook wins over an earlier tab that only contains the target |
| Schema.FirstPresent | etl.py:45-49 | the scan of one entry stops at the first alias present among the headers, and no earlier alias is present |
| Schema.RenameDict | etl.py:41-49 | every key of the rename map is a header, and every value is a canonical column name |
| Schema.UnlistedNotRenamed | etl.py:44-49 | a header that no entry lists is never renamed |
| Schema.RenameDictEntry | etl.py:44-49 | an alias owned by a single entry is renamed exactly when it is the alias the scan picks for that entry, and then to that entry's canonical name |
| Schema.ColumnMapOwned | etl.py:20-35 | each alias of the source table is listed by exactly one entry |
| Schema.ColumnMapDisjoint | etl.py:20-35 | the alias lists of the 12 entries are pairwise disjoint |
| Schema.NormalizeColumnsAlias | etl.py:37-52 | a header that cleans to an alias of an entry becomes that entry's canonical name when it is the alias the scan picks, and is only stripped and lowercased otherwise |
| Schema.NormalizeColumnsUnlisted | etl.py:37-52 | a header that is no alias is only stripped and lowercased |
| Schema.SoleAliasRenamed | etl.py:20-52 | an alias with no rival alias of the same entry in the row always becomes the canonical name, whatever its priority |
| Schema.RenameColumns | etl.py:51-52 | `rename` keeps the number of columns; a header that is a key of the map becomes its value, and any other header is kept |
| Schema.NormalizeColumns | etl.py:16-64 | the header row keeps its length (weaker by design; what each header becomes is stated by the lemmas below) |
| Schema.Missing | etl.py:56-57 | the missing list holds exactly the required columns absent from the headers |
| Schema.MissingEmpty | etl.py:55-62 | nothing is missing exactly when every required column is present |
| SchemaExamples.FinalWorkbookClean | verify_final_load.py:16-20 | the English sample headers `DATE`, `CUSTOMER_ID`, `SCREENTIME` clean to `date`, `customer_id`, `screentime` |
| SchemaExamples.FinalWorkbookHeaders | verify_final_load.py:16-20 | those headers normalise to `timestamp`, `user_id`, `watch_time_minutes` |
| SchemaExamples.SpanishWorkbookHeaders | verify_spanish_load.py:15-16 | the Spanish headers `ID_Usuario`, `Fecha`, `Género`, `Tiempo_Visto` normalise to `user_id`, `timestamp`, `genre`, `watch_time_minutes` |
| SchemaExamples.SpanishNothingMissing | verify_spanish_load.py:15-16 | after normalising the Spanish headers, no required column is missing |
| SchemaExamples.DateAndTimestampCollide | etl.py:44-52 | a row with both `date` and `timestamp` headers ends with two columns named `timestamp`: `date` wins the entry and `timestamp` keeps its name |
| Loader.ToNumeric | etl.py:114-115 | coercion keeps numbers and turns anything else into a missing value |
| Loader.ZeroToMissing | etl.py:114 | a zero duration becomes missing, so no divisor is zero; every other cell is kept |
| Loader.FillZero | etl.py:119-126 | a missing value becomes 0, and every other cell is kept |
| Loader.Coerce | etl.py:123-126 | the metric conversion always yields a number: numbers are kept, anything else becomes 0 |
| Loader.Clip01 | etl.py:120-121 | clipping lands in [0, 1], keeps values inside it and sends values below or above to the nearest bound |
| Loader.DerivedRate | etl.py:110-121 | the derived completion lies in [0, 1]; it is the clipped quotient when watch time and duration are numbers and the duration is not 0, and 0 otherwise |
| Loader.Ambiguous | etl.py:103-126 | a reported column is one the loader selects and is duplicated; nothing is reported exactly when every selected column occurs at most once |
| Loader.Derive | etl.py:110-121 | the derivation appends `completion_rate` and keeps the row count; its cell in each row is the derived rate of that row's watch time and duration, and each original cell is the converted one for the duration and watch-time columns and is kept otherwise |
| Loader.Derived | etl.py:110-121 | `completion_rate` is appended exactly when it is absent and both of its inputs are present; after conversion, the original cells are unchanged |
| Loader.Enforce | etl.py:102-126 | the type enforcement fails, naming a duplicated selected column, exactly when some selected column is duplicated |
| Loader.EnforceShape | etl.py:102-126 | on success the headers are kept, plus `completion_rate` when derived; the rows are kept, and every metric cell is a number |
| Loader.EnforceKeeps | etl.py:123-126 | on success every original metric cell is coerced to a number and every other cell is kept as read |
| Loader.EnforceDerived | etl.py:110-121 | a derived `completion_rate` holds, row by row, the derived rate of that row's watch time and duration as read |
| Loader.PrepareDataset | etl.py:100-126 | the chosen tab, normalised and enforced, fails exactly when a selected column is duplicated among the normalised headers, naming one such column; on success the row count is kept |
| Loader.DatasetIndex | etl.py:90-94 | the chosen tab contains `dataset` or `datos`; whenever some tab contains `dataset` the tab chosen for `dataset` is taken, and only otherwise the tab chosen for `datos`; the dataset tab is missing exactly when no tab name contains either word |
| Loader.InstructionsTab | etl.py:82-88 | the instructions entry is present exactly when some tab name contains `instrucciones`; it then holds the tab the sheet search picks: the first tab named `instrucciones` case-insensitively if there is one, otherwise the first tab containing the word |
| Loader.LoadData | etl.py:66-136 | no file gives nothing; a missing dataset tab raises; otherwise the result is the chosen tab normalised and enforced, or its error, together with the instructions tab (for text headers only; see Left out) |
| Events.WatchOf | analytics.py:267 | a numeric watch time is summed as is, and a missing one adds 0 |
| Grouping.Distinct | analytics.py:216 | the group keys have no duplicates and are exactly the keys that occur |
| Grouping.PartitionSum | analytics.py:267 | summing the group totals over the distinct keys gives the total weight of the rows that have a key |
| Grouping.CountOfPositive | analytics.py:176 | a key that occurs is counted at least once |
| Grouping.NoDupSubset | analytics.py:216 | a duplicate-free list contained in another is no longer |
| Ranking.RankingKey | analytics.py:259-265 | the grouping column is the first title candidate the frame has, or `genre` exactly when it has none of them |
| Ranking.Accumulate | analytics.py:267 | one entry per distinct present key, in order of first appearance, holding the sum of that key's watch times |
| Ranking.SortDesc | analytics.py:267 | the result is in non-increasing order of total and is a permutation of the input |
| Ranking.SortDescMembers | analytics.py:267 | sorting neither adds nor drops an entry |
| Ranking.SortDescSum | analytics.py:267 | sorting keeps the sum of the totals |
| Ranking.SortDescUnique | analytics.py:267 | sorting keeps keys unique |
| Ranking.TopContentRanking | analytics.py:250-267 | fails on a missing grouping column, then on a missing watch-time column, and succeeds exactly when both are present |
| Ranking.RankingContents | analytics.py:250-267 | the ranking is sorted largest first, lists each present value of the grouping column exactly once, and gives each the total watch time of its rows |
| Ranking.RankingTotal | analytics.py:267 | the ranking's totals add up to the watch time of all rows that have a value in the grouping column |
| Affinity.Sai | analytics.py:166-190 | a missing segment or genre column gives the empty matrix; otherwise the row labels are the distinct segments seen together with a genre, and the column labels are the distinct genres, with no duplicates |
| Affinity.SaiLabels | analytics.py:176-181 | every row label has an event with that segment and some genre, every column label has an event with that genre, and conversely |
| Affinity.SaiCell | analytics.py:169-190 | for every label pair no denominator is zero, and the cell is (segment share / global share) * 100 with the shares counted as `crosstab` and `value_counts` count them |
| Affinity.RowSharesSum | analytics.py:181-183 | the genre shares within each segment add up to 1 |
| Affinity.WeightedIndexSum | analytics.py:169-188 | a segment's indices, weighted by the global genre shares, add up to 100 |
| Affinity.Index | analytics.py:183-190 | a cell times the genre's global share is 100 times the genre's share within the segment; a zero global share gives 0, as `fillna(0)` does |
| Affinity.IndexNonNegative | analytics.py:183-190 | no index is negative |
| Recurrence.RecurrenceMetrics | analytics.py:194-210 | sorting by a missing `user_id`, then by a missing `timestamp`, raises; the metrics are produced exactly when both are present |
| Recurrence.SortTimes | analytics.py:200 | a user's session times are put in ascending order without adding or dropping one |
| Recurrence.GapsTelescope | analytics.py:201-202 | the consecutive gaps of ordered times add up to the last time minus the first |
| Recurrence.UserSpan | analytics.py:200-202 | a user with n sessions has n - 1 gaps, and they add up to the time between the earliest and the latest session |
| Recurrence.UserGapsCount | analytics.py:201-202 | a user with n sessions has n - 1 gaps, and none without a session |
| Recurrence.UserGapsNonNegative | analytics.py:200-202 | every gap of a user, taken between time-ordered sessions, is non-negative |
| Recurrence.AllGapsEach | analytics.py:200-202 | every gap of every user is non-negative |
| Recurrence.GapCount | analytics.py:200-202 | the number of gaps is the number of rows with a user and a valid time minus the number of distinct users with such a row |
| Recurrence.AverageNonNegative | analytics.py:200-208 | the average recurrence is never negative |
| Recurrence.NoGapsIff | analytics.py:201-208 | there is no gap exactly when no user has two sessions |
| Recurrence.NoReturnNoRecurrence | analytics.py:204-208 | when no user has two sessions, the average is reported as 0 |
| Recurrence.Days | analytics.py:205 | each row's calendar day is its time divided by 86400, rounded down, and missing for a row without a valid time |
| Recurrence.MeanDays | analytics.py:202-208 | the mean of no gaps is reported as 0; otherwise the mean times the number of gaps, in seconds, is their total |
| Recurrence.UniqueDates | analytics.py:205 | the unique-date count is the number of distinct calendar days on which some session happened |
| Devices.DeviceRatio | analytics.py:212-218 | a missing `user_id`, then a missing `device`, raises; the ratio is absent (`NaN`) exactly when no event has a user |
| Devices.DeviceCount | analytics.py:216 | a user's device count is 0 exactly when none of their events names a device |
| Devices.DeviceCountIsSet | analytics.py:216 | a user's count is the number of distinct devices seen on their events |
| Devices.DeviceCountBound | analytics.py:216 | no user has more devices than the whole frame |
| Devices.RatioBounds | analytics.py:212-218 | the ratio lies between 0 and the number of distinct devices in the frame |
| Devices.RatioAtLeastOne | analytics.py:212-218 | the ratio is at least 1 when every event of a known user names a device |

## Left out

- **Excel and pandas I/O.** `pd.ExcelFile`, `read_excel` and the duckdb connection are not modelled. A workbook is a list of named tabs, each a table of cells, with numeric text already parsed into numbers.
- **Timestamp parsing and genre title-casing.** `pd.to_datetime` parsing and the `genre` title-casing are not modelled: those cells are kept as read by the loader. The analytics frame takes timestamps as whole seconds on a naive clock, and treats any non-timestamp value as `NaT`.
- **Non-numeric watch time.** `Events.WatchOf` treats a non-numeric watch time as missing, so it adds 0. The loader guarantees a numeric column.
- **Unicode.** Lowercasing and whitespace are exact for Latin-1 only. Characters beyond Latin-1 are left unchanged.
- **Duplicated columns.** When a column the loader selects is duplicated, pandas raises, and that is modelled as `AmbiguousColumn`. What pandas would do with duplicated columns it never selects (it keeps them) is modelled. Whatever else it might do with duplicates is not.
- **Label and tie order.** Group, crosstab and device labels are in first-appearance order rather than pandas' sorted order. Ties in the ranking sort are in an unspecified order.
- **`NaN` and `NaT` as text.** The `NaN`/`NaT` text forms and floating-point rounding are not modelled; reals are exact.
- **Other queries.** The SQL queries of `AnalyticsEngine` (KPIs, time series, heatmap and similar) are not modelled. Neither are clustering, survival, format correlation, the cross-distribution pivot, the Streamlit app and the data generators. They depend on duckdb, scikit-learn, lifelines or the UI.
- **Header labels.** Header labels are assumed to be text. A numeric or date header cell, which `read_excel` keeps as a number or a timestamp, makes `strip()` raise inside `load_data`; the model cannot express that error.
- Text.Lower: its own contract states only that the length is kept. What each character becomes is stated by `Text.LowerOfLower`, because a per-character contract on `Lower` makes every worked header example too expensive to verify.
- SchemaExamples.SpanishWorkbookHeaders: the Spanish sample workbook has seven headers. The example covers the four the required columns come from, taken as a row of their own.
- Schema.NormalizeColumns: its own contract states only that the column count is kept. What each header becomes is stated by `Schema.NormalizeColumnsAlias`, `Schema.NormalizeColumnsUnlisted` and `Schema.SoleAliasRenamed`. Stating it in the function's contract makes every use of it too expensive to verify.
- SchemaExamples.FinalWorkbookHeaders: the sample workbook's other columns are not part of the example. Only the three checked headers are, and they are taken as a row of their own.
- Loader.Enforce: `Loader.Enforce` reports the first duplicated column in the order the loader selects them. Which exception pandas raises, and its message, is not modelled.
