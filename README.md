# YouTube dashboard data preparation, modelled in Dafny

This project models the data-preparation path of a Streamlit dashboard for a
YouTube video dataset. This path runs before any chart is drawn:

- **Loading** (`utils/io.py`, `load_data`). The CSV file is read in chunks of
  100 000 rows. Reading stops early once the sample size is reached. The
  chunks are concatenated, and the result is trimmed to the sample size by
  random sampling. The publish year, month and date are derived from
  `videoPublished`. The sentinels -2.0 and -1.0 and the infinities are
  cleaned from numeric columns. A missing file gives an empty frame. An
  empty or unparseable file gives an empty frame. Any other error gives
  `None`.
- **Cleaning** (`utils/prep.py`, `clean_data`). A loop over the numeric
  columns replaces -2.0, -1.0, +inf and -inf with NaN.
- **Feature engineering** (`utils/prep.py`, `engineer_features`). It adds the
  category name, views per subscriber, like, comment and dislike rates, the
  engagement score, the season, net likes and the like-to-dislike ratio.
  Each column is added only when its input columns exist.
- **The dashboard's main flow** (`app.py`, `main`). It first checks that the
  file exists and that a first load is neither `None` nor empty. It then
  loads the data a second time and narrows it by a min-views, a max-views
  and a category filter, in that order. Each filter is skipped, with a
  warning where the code gives one, when its setting is invalid or its
  column is absent. Feature engineering runs last.
- **Two aggregations of the enhanced charts** (`utils/viz_enhanced.py`). One
  chooses the channel key and ranks channels by summed views, top N. The
  other is the row-validity mask of the engagement-score chart.

Modules:

- **`Frame`** holds the shared model. A data frame is a list of column names
  plus a sequence of rows. A row maps column names to cells. A cell is
  missing, a finite number (an exact `real`), an infinity, text, a timestamp
  or a date. Column assignment, masked `.loc` assignment and boolean indexing
  are functions with contracts.
- **`Prep`** models `clean_data` as a method with a `for` loop. It is proved
  equal to the specification function `Cleaned`. `engineer_features` is a
  method that patches the frame block by block. It is proved to produce
  exactly the frame that `Engineered` describes.
- **`Io`** models `load_data` as a method. Its chunk loop is a `while` loop
  with a `break`. It is proved equal to the specification function `Loaded`.
- **`App`** models `main` as a method that rebinds the frame through the load
  guards, the filter stages and feature engineering. It is proved against the
  predicate `Ran`.
- **`VizEnhanced`** models the channel-key choice, the group-by sum, the
  descending sort, `head`, and the engagement chart's valid rows.

Some parts of the source are given to the model as parameters:

- **The file.** It is a `CsvSource`: the header, the chunks the pandas reader
  would yield, and how the reader ends (end of file, `EmptyDataError`,
  `ParserError` or another exception). `None` means that the path does not
  exist.
- **The random sample.** `df.sample(n, random_state=42)` is a `draw`
  function. It may return any `n` distinct row positions.
- **Date parsing.** `pd.to_datetime(..., errors='coerce')` is a `toDatetime`
  function. It either returns datetime values, or returns a column without a
  datetime dtype, or raises.
- **The engagement score value.** The log1p formula is a `score` function of
  the views, likes and comments cells.

In `io.py`, the sentinel and infinity replacement at lines 133–142 is the same
loop as `clean_data`, so the loader's model calls `Prep.CleanData`.

## Model

| member | source | states |
|---|---|---|
| Frame.Where | app.py:333 | Boolean indexing keeps the columns, keeps exactly the rows the mask accepts with every copy of each, and keeps their order. |
| Frame.AssignWhere | utils/prep.py:172 | `.loc[mask, c] = …` gives the masked rows the new value. Other rows keep their cell in `c`, or get a missing one when `c` is new. The column list gains `c`, and no other cell changes. |
| Frame.Div | utils/prep.py:172 | Float division: x / y for finite y ≠ 0, and 0 for a finite value over ±inf. A non-zero value over 0 gives a signed infinity, as does ±inf over a finite value. 0/0, inf/inf and any text or missing operand give NaN. |
| Frame.Sub | utils/prep.py:256 | Float subtraction: x − y for finite operands. It gives a signed infinity when exactly one operand is infinite, or when both are infinite with opposite signs. inf − inf and any text or missing operand give NaN. |
| Prep.CleanData | utils/prep.py:26-42 | The loop over the numeric columns returns exactly `Cleaned(df)`, and the input value is untouched. |
| Prep.Cleaned | utils/prep.py:26-42 | The cleaned frame keeps the columns, the row count and each row's keys, and it stays well-formed. |
| Prep.NumericColumnsExactly | utils/prep.py:30 | A column is selected for cleaning iff it is a column of the frame and holds only numbers and NaN. |
| Prep.PrefixAll | utils/prep.py:32 | After k iterations, the set of columns already cleaned is exactly the first k numeric columns. |
| Prep.CleanCell | utils/prep.py:35-39 | Replacing the sentinels and then the infinities maps a cell to missing iff it is -2.0, -1.0, +inf or -inf, and otherwise leaves it as it is. |
| Prep.CleanedChangesExactly | utils/prep.py:30-39 | A cell changes iff its column is numeric and the cell is a sentinel or an infinity; a changed cell becomes missing. |
| Prep.CleanedKeepsNumericColumns | utils/prep.py:30-39 | Cleaning keeps exactly the same set of numeric columns. |
| Prep.CleanedHasNoSentinels | utils/prep.py:30-39 | After cleaning, no cell of a numeric column is -2.0, -1.0, +inf or -inf. |
| Prep.CleanedIdempotent | utils/prep.py:35-39 | Cleaning a cleaned frame changes nothing. |
| Prep.CategoryLabel | utils/prep.py:123-163 | A whole-number ID in the 32-entry table gets that table's name; every other ID (unmapped, fractional, text or missing) gets "Unknown", and only those do. |
| Prep.CategoryTableComedy | utils/prep.py:123-157 | IDs 23 and 34 are both "Comedy"; the unlisted IDs 3 and 16 are "Unknown". |
| Prep.CategoryNameCell | utils/prep.py:159-163 | The category cell is always text: the table's name for a mapped ID, and "Unknown" exactly for unmapped, fractional, text or missing IDs. |
| Prep.ViewsPerSubscriberCell | utils/prep.py:167-172 | A new value appears only where subscribers > 0 and views > 0, and there it is views / subscribers. |
| Prep.ClampToOne | utils/prep.py:187-189 | A value above 1 (including +inf) becomes exactly 1.0, every other value is kept, and the result is never above 1. |
| Prep.LikeRateCell | utils/prep.py:176-189 | The like rate is never above 1.0 or +inf; it is set only where views > 0, and there it is min(likes / views, 1). |
| Prep.CommentRateCell | utils/prep.py:192-196 | The comment rate is set only where views > 0, and there it is comments / views, not clamped. |
| Prep.DislikeRateCell | utils/prep.py:226-231 | The dislike rate is set only where views > 0, and there it is dislikes / views, not clamped. |
| Prep.EngagementCell | utils/prep.py:200-214 | A row outside the valid mask (views > 0, likes and comments present) keeps its engagement cell. |
| Prep.SeasonOf | utils/prep.py:238-247 | `get_season` always returns one of the four season names, and anything other than "Fall" comes from a whole month from 1 to 12. |
| Prep.SeasonOfMonth | utils/prep.py:238-247 | For months 1 to 12, the season is the meteorological season: Dec/Jan/Feb Winter, Mar–May Spring, Jun–Aug Summer, Sep–Nov Fall. |
| Prep.SeasonFallThrough | utils/prep.py:238-250 | Every value that is not a month 1–12, including a missing month, is "Fall". |
| Prep.NetLikesCell | utils/prep.py:254-256 | The net likes are likes − dislikes on every row, and missing when either input is not a number. |
| Prep.LikeToDislikeCell | utils/prep.py:258-262 | The ratio is set only where dislikes > 0, and there it is likes / dislikes. |
| Prep.WithCategoryName | utils/prep.py:159-163 | The category block writes the whole `categoryName` column iff `videoCategoryId` exists, and changes no other cell. |
| Prep.WithViewsPerSubscriber | utils/prep.py:167-172 | The block runs iff both input columns exist, and it touches only its own column. |
| Prep.WithLikeRate | utils/prep.py:176-189 | The block runs iff likes and views exist, and it touches only `like_rate`. |
| Prep.WithCommentRate | utils/prep.py:192-196 | The block runs iff comments and views exist, and it touches only `comment_rate`. |
| Prep.WithEngagementScore | utils/prep.py:200-214 | The score block runs iff the three inputs exist and some row is valid, and it touches only `engagement_score`. |
| Prep.WithDislikeRate | utils/prep.py:226-231 | The block runs iff views and dislikes exist, and it touches only `dislike_rate`. |
| Prep.WithSeason | utils/prep.py:235-250 | The season column is written iff `publishMonth` exists, and no other cell changes. |
| Prep.WithNetLikes | utils/prep.py:254-256 | The block runs iff likes and dislikes exist, and it touches only `net_likes`. |
| Prep.WithLikeToDislike | utils/prep.py:254-262 | The block runs iff likes and dislikes exist, and it touches only `like_to_dislike_ratio`. |
| Prep.DerivedCellStable | utils/prep.py:119-262 | A derived cell depends only on the input cells; the comment-rate block that runs twice gives the same value again. |
| Prep.RunBlock | utils/prep.py:161-262 | Running one block keeps the frame in the state "the blocks done so far have run on the input". |
| Prep.EngineerFeatures | utils/prep.py:119-265 | Same rows in the same order; the input columns first and unchanged; a derived column is added exactly when its inputs exist; each derived cell is computed from the input row; all other cells are kept; a well-formed frame stays well-formed. |
| Io.StopAt | utils/io.py:56-57 | The stop point is the least k ≥ 1 with k · 100000 ≥ sample_size. |
| Io.ChunksReadFirstStop | utils/io.py:45-58 | The loop stops after the first chunk count k with k · chunk_size ≥ sample_size, and it reads every chunk when sample_size is None or 0. |
| Io.Figures | utils/io.py:53 | The j-th progress figure is (j+1) · 100000. |
| Io.ProgressGrows | utils/io.py:53 | The progress figures grow strictly. |
| Io.ProgressCanExceedRows | utils/io.py:53 | A one-row file reports 100000 rows loaded. |
| Io.ReadChunks | utils/io.py:44-58 | The loop returns exactly the first `ChunksRead` chunks and their progress figures, and it breaks iff it stopped before the reader's end. |
| Io.Flatten | utils/io.py:70 | The concatenation has as many rows as the chunks together, and none iff every chunk is empty. |
| Io.FlattenOrder | utils/io.py:70 | Row i of chunk k lands at position (rows of the chunks before k) + i: every row is kept, in chunk order. |
| Io.FlattenRows | utils/io.py:70 | A row is in the concatenation iff it is in one of the chunks. |
| Io.FlattenKeys | utils/io.py:70 | The concatenated rows keep the chunks' columns. |
| Io.Concat | utils/io.py:70 | The concatenated frame has the header's columns, as many rows as the chunks hold together, and exactly the chunks' rows. |
| Io.GatheredValid | utils/io.py:70 | The concatenation of a sound reader's chunks is a well-formed frame. |
| Io.Sample | utils/io.py:76 | The sample keeps the columns and has exactly n rows. |
| Io.PickSubMultiset | utils/io.py:76 | Distinct positions pick a sub-multiset of the rows. |
| Io.SampleFromRows | utils/io.py:76 | Every sampled row is a loaded row, and no row is taken twice. |
| Io.SampleValid | utils/io.py:76 | A sample of a well-formed frame is well-formed. |
| Io.Picked | utils/io.py:72-76 | The trim keeps the columns; it gives exactly sample_size rows when more were loaded, and all rows otherwise. |
| Io.PickedFromRows | utils/io.py:72-76 | Every row after the trim comes from the loaded chunks. |
| Io.PickedValid | utils/io.py:72-76 | The trim keeps the frame well-formed. |
| Io.AssembledRows | utils/io.py:70-76 | Assembly fails (None) iff a negative sample size must be trimmed; otherwise the row count is exactly sample_size when trimmed, and the loaded count otherwise. |
| Io.WithDates | utils/io.py:111-126 | The date block keeps the row count and every existing column, and keeps the frame well-formed. |
| Io.DatesOnlyWhenConverted | utils/io.py:111-126 | `publishYear`, `publishMonth` and `publishDate` are columns afterwards iff they already were, or `videoPublished` exists and converts to a datetime dtype. |
| Io.ConvertedMonths | utils/io.py:116-121 | After a conversion, each row's `publishMonth` is its timestamp's month, or missing for NaT. |
| Io.ConvertedYearsAndDates | utils/io.py:115-122 | After a conversion to datetime, row i's `videoPublished` is its timestamp, and `publishYear`, `publishMonth` and `publishDate` are that timestamp's year, month and date (missing for NaT). The row gains exactly these four keys, and every other cell is unchanged. |
| Io.UnconvertedDates | utils/io.py:110-126 | Without a datetime result the columns are unchanged. A non-datetime result replaces only `videoPublished`, with the values `to_datetime` returned. An exception, or a frame without `videoPublished`, leaves the row as it was. |
| Io.DeriveDates | utils/io.py:111-126 | The method's in-place column updates produce exactly `WithDates`. |
| Io.Assemble | utils/io.py:70-142 | Sampling, the date block and the cleaning loop produce exactly `Assembled`. |
| Io.LoadData | utils/io.py:32-156 | The result is exactly `Loaded`, and the progress figures are exactly `Progress`. |
| Io.HeaderOnlyFile | utils/io.py:48-126 | A header-only file, read as one empty chunk, loads as a frame with no rows that keeps the header's columns. It gives `None` only for a negative sample size, because `df.sample` raises. |
| Io.MissingFileIsEmpty | utils/io.py:34-37 | A path that does not exist gives an empty frame, not None, and reads no chunk. |
| Io.ReaderErrors | utils/io.py:59-66 | EmptyDataError or ParserError while reading gives an empty frame; any other exception gives None. |
| Io.ErrorAfterStopUnseen | utils/io.py:56-58 | A reader error after the early stop is never reached: the load succeeds. |
| Io.LoadedRowBound | utils/io.py:70-76 | With a positive sample size, a successful load has at most sample_size rows. |
| Io.LoadedHasNoSentinels | utils/io.py:133-142 | After a load, no numeric column holds -2.0, -1.0, +inf or -inf. |
| App.MinViewsStage | app.py:329-335 | When offered, with the column present and min_views ≥ 0, the stage keeps exactly the rows with views ≥ min_views, every copy of each; a negative bound leaves the data unchanged and adds a warning; an absent column is a no-op. |
| App.MaxViewsStage | app.py:337-343 | Only with max_views ≥ 0 and max_views ≥ min_views does the stage keep exactly the rows with views ≤ max_views, every copy of each; otherwise it leaves the data unchanged and adds a warning; an absent column is a no-op. |
| App.CategoryStage | app.py:345-348 | With a non-empty selection and a `categoryName` column, the stage keeps exactly the rows whose category is selected, every copy of each; otherwise it is a no-op. |
| App.StageNarrows | app.py:333-347 | Each stage's rows are an order-preserving subsequence of its input. |
| App.ChainNarrows | app.py:329-348 | The chain keeps the columns, and its rows are an order-preserving subsequence of the loaded rows. |
| App.ChainKeeps | app.py:329-348 | A row survives the chain iff it was loaded and passes each stage that ran, and then it survives as often as it was loaded. |
| App.ChainWithoutColumns | app.py:329-348 | Without `videoViewCount` and `categoryName`, the chain changes nothing and warns nothing. |
| App.RunMain | app.py:226-352 | `main` follows `Ran`: the load guards, the second load, then the min → max → category filters, then `engineer_features`. |
| App.ReturnsBeforeFiltering | app.py:226-240 | A missing file, or a first load that is None or empty, ends `main` before any filtering. |
| App.ShownRows | app.py:325-352 | Shown data comes from a successful second load and has no more rows than it. |
| VizEnhanced.GroupColumnAsWritten | utils/viz_enhanced.py:249-277 | The chart has no key iff neither channel column exists; the key is `channelName` iff that column exists and some name, turned into a string, is not blank. |
| VizEnhanced.GroupColumn | utils/viz_enhanced.py:249-277 | As above, but a missing name counts as blank; otherwise the key is `channelId`. |
| VizEnhanced.GroupColumnNarrows | utils/viz_enhanced.py:258-277 | The two keys differ only when every non-blank name is missing, and then the corrected one is `channelId`. |
| VizEnhanced.KeysOf | utils/viz_enhanced.py:280 | The group keys are distinct and are exactly the non-missing key values of the rows. |
| VizEnhanced.GroupsAreChannels | utils/viz_enhanced.py:280 | Each group total is its channel's view sum, the keys are distinct, and every row with a key is represented. |
| VizEnhanced.GroupsConserveViews | utils/viz_enhanced.py:280 | The group totals add up to the views of all rows whose key is present: the sum neither loses nor invents views. |
| VizEnhanced.KeySumsStep | utils/viz_enhanced.py:280 | One more row adds its views to its own channel's sum and to no other. |
| VizEnhanced.SumForNonNegative | utils/viz_enhanced.py:280 | Non-negative view counts give non-negative channel totals. |
| VizEnhanced.Insert | utils/viz_enhanced.py:281 | Insertion into a descending list keeps it sorted and adds exactly the new entry. |
| VizEnhanced.SortDesc | utils/viz_enhanced.py:281 | The sort is non-increasing in views and is a permutation of the groups. |
| VizEnhanced.Head | utils/viz_enhanced.py:281 | `head(n)` is the first n entries, or all of them; a negative n drops the last \|n\| entries. |
| VizEnhanced.TopOfSorted | utils/viz_enhanced.py:281 | The head of the sorted groups has at most n entries, is sorted, comes from the groups, and no left-out group beats a kept one. |
| VizEnhanced.RankingTop | utils/viz_enhanced.py:281 | The ranking has at most top_n entries, is non-increasing, holds only channels, and holds the largest totals. |
| VizEnhanced.RankingSums | utils/viz_enhanced.py:280-281 | Each ranked value is the sum of views over that channel's rows, and its key is not missing. |
| VizEnhanced.KeysBound | utils/viz_enhanced.py:280 | There are no more groups than rows. |
| VizEnhanced.ChannelPerformanceAsWritten | utils/viz_enhanced.py:249-281 | The chart is None iff neither `channelName` nor `channelId` is a column; it is ranked iff the as-written key and the views are columns, and then it holds the top-N ranking by that key. |
| VizEnhanced.ChannelPerformance | utils/viz_enhanced.py:249-281 | None iff neither channel column exists; the chosen column is lacking iff views are absent, or only the names exist and all of them are blank; a ranked chart holds the top-N ranking by the chosen key. |
| VizEnhanced.NamelessChannelsAsWritten | utils/viz_enhanced.py:262-264 | As written, a frame with one missing channel name ranks no channel. |
| VizEnhanced.NamelessChannelsCorrected | utils/viz_enhanced.py:262-277 | When missing names count as blank, the same frame is ranked by `channelId` and shows its one channel. |
| VizEnhanced.NamedChannelsRanked | utils/viz_enhanced.py:258-281 | When ranking by name, with top_n covering all rows, at least one channel is shown. |
| VizEnhanced.ValidRows | utils/viz_enhanced.py:326 | The valid rows are exactly the rows with views > 0 and likes and comments present, every copy of each, in order; there are none iff no row is valid. |
| VizEnhanced.EngagementDistribution | utils/viz_enhanced.py:326-351 | The chart is None iff no row has views > 0 with likes and comments present. |
| VizEnhanced.EngagementRows | utils/viz_enhanced.py:326-334 | The scored frame is the valid rows, in order, each with its own score; every scored row is valid. |

## Left out

- Streamlit output (`st.write`, `st.warning`, `st.error`, `st.metric`), CSS, themes, tabs, `st.cache_data`, `session_state` refresh and reset, and all chart rendering: these are user-interface calls. `App.Notice` records only the two filter warnings.
- `normalize_data`: its mean and standard deviation are floating-point numerics.
- Prep.EngagementCell: the log1p value of the engagement score is the `score` parameter. Only which rows get a value is modelled.
- Io.Sample: the pandas random generator behind `random_state=42` is the `draw` parameter. Any distinct draw is allowed, so the model does not fix which rows are sampled.
- Io.WithDates: `pd.to_datetime` parsing is the `toDatetime` parameter. The time of day is not modelled.
- Prep.IsNumericColumn: a column counts as numeric when all its cells are numbers or missing. pandas reads the column's dtype instead (`select_dtypes` at utils/prep.py:30 and utils/io.py:133). The two readings differ in one case. A sample size above 100 000 makes `load_data` read several chunks. If a numeric column holds text only in a later chunk, `pd.concat` gives it object dtype. If `df.sample` then drops every text row, pandas leaves that column's -2.0, -1.0 and ±inf in place, but the model cleans them. `app.py` cannot reach this case, because its sample sizes are at most 100 000 and so it reads a single chunk.
- Which pandas exception a given file content raises is not modelled. The reader's end marker says which one was raised. A header-only file raises nothing: the reader yields one empty chunk with the header's columns, and the file is the source `CsvSource(header, [[]], Eof)` (see `Io.HeaderOnlyFile`). `EmptyData` stands for a file with no header at all.
- The warnings of `utils/io.py:86-107`, including the `isinstance` count of non-numeric values: they only report.
- Text in arithmetic or in a comparison: pandas raises `TypeError`. The cell operations in `Frame` treat such text as missing, and as failing a comparison.
- VizEnhanced.ViewsOf: a view count that is not a finite number adds 0 to a channel's sum. Text views are not modelled. If a channel's views mix numbers and text, pandas raises `TypeError`. If a channel's views are all text, `groupby(...).sum()` concatenates the strings. For ±inf, pandas would give an infinite (or NaN) total. An infinite view count cannot reach the chart after `load_data`, because the cleaning replaces infinities in a numeric view column (`Io.LoadedHasNoSentinels`).
- VizEnhanced.SortDesc: `sort_values` orders ties in an unspecified way. The model keeps ties in insertion order, and its contracts do not depend on that order.
- VizEnhanced.EngagementDistribution: when one of its three columns is absent, the source raises `KeyError`. The model returns `ScoreKeyMissing` instead.
- VizEnhanced.ChannelPerformance: when views or the chosen key column are absent, the groupby raises `KeyError`. The model returns `KeyMissing` instead.
- The hash-based `displayId` of `utils/viz_enhanced.py:286-288`: Python salts string hashes per process, so it is not deterministic.
- The `filter_outliers` checkbox at `app.py:286` is never read.
- In `app.py`, the category filter at line 345 runs before `engineer_features` at line 352. It is modelled as written: it acts only when the raw file already has a `categoryName` column.
- Integer and float widths: counts and rates are exact integers and reals, with no overflow or rounding.

## Findings

| source | as written | input that shows it | evidently intended | confidence | as-written member | corrected member |
|---|---|---|---|---|---|---|
| utils/viz_enhanced.py:262 | `astype(str)` runs before `fillna('')`, so a missing channel name becomes the string "nan", which is not blank. A `channelName` column with no real names is therefore chosen, and `groupby` drops every row with a missing key, so the chart ranks nothing. | A frame with `channelName` missing, `channelId` "UC1" and 5 views (`VizEnhanced.NamelessFrame`) | Missing names count as blank, so the chart falls back to `channelId` and ranks "UC1" with 5 views | not executed | VizEnhanced.NamelessChannelsAsWritten | VizEnhanced.NamelessChannelsCorrected |
