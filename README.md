# Games dashboard: data preparation and selection rule

A Dafny model of the data logic of a small games-statistics dashboard
(`board.py`). The dashboard loads a table of video-game releases once,
then re-filters it on every interaction by genre, content rating and a
range of release years.

The model has two parts, each proved against specifications:

- **Dataset preparation** (board.py:14-25, module `Preparation`). Records
  with a missing field are dropped. Releases before 2000 are removed. The
  rest is ordered by (year, platform). The releases per (year, platform)
  are counted, and the count is attached to every record through an outer
  merge on the two keys, as "Games quantity". The distinct genres and
  ratings are collected for the two dropdowns.
- **The callback `update_dash`** (board.py:76-120, module `Dashboard`).
  The class `Board` holds the prepared table and the two module-level
  history lists. Each call appends the dropdown values to those lists and
  reads the last entries back. It keeps the offered labels that those
  entries name and builds the year list `range(lo, hi)`. One of four
  filters is then chosen by which selections are non-empty. The call
  returns the summary text, the selected frame for the area chart, and
  the same frame sorted by user score for the scatter chart.

Supporting modules:

- `Seqs`: order-preserving filtering (a boolean mask) and `unique()`.
- `Sorting`: `sort_values` as an insertion sort, with the proof that it
  sorts and permutes.
- `Decimal`: the decimal text of the number in the summary.
- `Scenario`: a worked example on four records, one of them without a
  critic score, carried through preparation and two callback calls.

Conventions of the model:

- The raw file is an input sequence of `RawRecord`s whose seven fields
  are `Option`s. A missing value (NaN) is `None`.
- Years are integers. Scores are integers that stand for an ordered key.
  No score arithmetic occurs.
- A dropdown value is a list of labels.
- The chained `.loc[... .isin(...)]` masks of one branch are one
  conjunction over the rows (`Dashboard.Matches`).
- The summary number is `abs_main_frame.size`, the element count of the
  frame: rows times columns. The model follows the code here, not the
  words "games quantity". With the seven record fields plus "Games
  quantity" the frame has 8 columns (`Dashboard.ColumnCount`). A file with
  more columns would raise this factor, and `dropna()` at board.py:15
  would then also drop records missing a value in those columns; the
  seven-field `RawRecord` does not model them.
- An empty selection means "no filter on that column". A non-empty
  selection that names no offered label still chooses a filtering branch,
  so nothing is selected.
- The history lists grow on every call. Only their last entries are read;
  when calls do not overlap, those are the current arguments.

## Model

| member | source | states |
|---|---|---|
| `Seqs.Filter` | board.py:16 | A boolean mask keeps exactly the elements that pass it, and never lengthens the table |
| `Seqs.FilterExact` | board.py:16 | A boolean mask keeps each element exactly as often as it occurs when it passes, drops it otherwise, and keeps the order (subsequence) |
| `Seqs.FilterCongruent` | board.py:96-102 | Two masks that agree on every row select the same rows |
| `Seqs.Unique` | board.py:24-25 | `unique()` is duplicate-free and holds exactly the values of the column |
| `Sorting.SortBy` | board.py:111 | Sorting returns a permutation of its input |
| `Sorting.SortBySorted` | board.py:16 | Sorting by a total preorder yields a table ordered by it |
| `Sorting.InsertSorted` | board.py:16 | Inserting into an ordered table keeps it ordered |
| `Decimal.NatToDecimal` | board.py:118 | The number is written with digits only, at least one, and no leading zero ("0" alone for zero) |
| `Decimal.DecimalUnique` | board.py:118 | Any digit string without leading zeros whose value is n is exactly the rendering of n, so the text is Python's standard decimal |
| `Decimal.DecimalRoundTrip` | board.py:118 | Reading the written digits back gives the number |
| `Preparation.ToGame` | board.py:15 | A complete raw record is exactly the record filled from its game |
| `Preparation.DropNa` | board.py:15 | `dropna()`: never longer than the raw table; what it keeps is stated by `Preparation.DropNaCounts` |
| `Preparation.DropNaInOrder` | board.py:15 | `dropna()` keeps the complete records in their original order: filling the kept games back in gives the raw table with every incomplete record deleted |
| `Preparation.DropNaCounts` | board.py:15 | `dropna()` keeps each complete record as often as it occurs and nothing with a missing field |
| `Preparation.Cleaned` | board.py:16 | The year mask and the (year, platform) sort: never longer than the raw table, every record from 2000 on; its contents are stated by `Preparation.PreparedGames` and its order by `Preparation.PreparedSorted` |
| `Preparation.StrLeTotal` | board.py:16 | Python string order compares any two strings |
| `Preparation.StrLeTransitive` | board.py:16 | Python string order is transitive |
| `Preparation.YearPlatformPreorder` | board.py:16 | The (year, platform) order is a total preorder |
| `Preparation.GroupSize` | board.py:18 | The count of a group is the number of records with its key |
| `Preparation.GroupCounts` | board.py:18 | One group per distinct (year, platform) of the table, keys distinct, each count the number of records with that key |
| `Preparation.MergeLeft` | board.py:20 | The records' side of the outer merge: every record contributes at least one row; `Preparation.MergeLeftMatched` states that each contributes exactly one matched row |
| `Preparation.OuterMerge` | board.py:20 | `pd.merge(..., how='outer')`: every record contributes at least one row; `Preparation.OuterMergeMatched` states the exact result when the groups come from the same table |
| `Preparation.UniqueKeyMatch` | board.py:20 | With distinct group keys, a key that occurs matches exactly one group |
| `Preparation.MergeLeftMatched` | board.py:20 | When every record's key names one group, the merge pairs each record, in order, with its group's count |
| `Preparation.OuterMergeMatched` | board.py:20 | With groups taken from the same table, the outer merge has one matched row per record, in order, and no one-sided rows |
| `Preparation.CountAndMerge` | board.py:18-22 | Group count, merge and renaming: one row per record; `Preparation.CountAndMergeRows` states each row |
| `Preparation.CountAndMergeRows` | board.py:18-22 | Row i of the merged table is record i with the number of records sharing its (year, platform) |
| `Preparation.Prepare` | board.py:14-25 | The whole preparation: no more rows than raw records, and duplicate-free label lists; `Preparation.PreparedRows`, `Preparation.PreparedGames`, `Preparation.PreparedSorted` and `Preparation.AvailableLabels` state the rest |
| `Preparation.PreparedRows` | board.py:14-22 | The prepared table has the cleaned records in order, neither added nor removed, each with its group's size |
| `Preparation.QuantityCountsKey` | board.py:18-21 | Every row's "Games quantity" is the number of prepared rows with the same (year, platform) |
| `Preparation.PreparedGames` | board.py:15-16 | The prepared records are exactly the complete raw records from 2000 on, with their multiplicity |
| `Preparation.PreparedRowsComplete` | board.py:15-16 | Every prepared row has year 2000 or later and comes from a complete raw record |
| `Preparation.PreparedSorted` | board.py:16-20 | The prepared table is ordered ascending by (year, platform) |
| `Preparation.AvailableLabels` | board.py:24-25 | The genre and rating lists are duplicate-free, hold exactly the table's values, and cover every row |
| `Dashboard.YearRange` | board.py:93 | `range(lo, hi)` holds exactly the years with lo <= year < hi, and is empty when hi <= lo |
| `Dashboard.Labels` | board.py:91-92 | The list comprehensions: a label is kept exactly when it is offered and selected |
| `Dashboard.Choose` | board.py:95-102 | The four-way branch: a genre (rating) filter is active exactly when the genre (rating) selection is non-empty, and it holds exactly the offered labels selected; the year list is passed through |
| `Dashboard.Select` | board.py:91-102 | `abs_main_frame`: never longer than the table, and every kept row is a table row with lo <= year < hi; `Dashboard.SelectIsConjunction` and `Dashboard.SelectExact` state exactly which rows are kept |
| `Dashboard.Update` | board.py:91-118 | The callback's outputs: the text is the summary of the area frame, and the scatter frame is a permutation of the area frame, whose rows are table rows in the year window; `Dashboard.ViewFrames` and `Dashboard.QuantityText` state the frames and what the text says |
| `Dashboard.QuantityText` | board.py:118 | The text is the prefix followed by decimal digits without leading zeros whose value is rows times columns, which by `Decimal.DecimalUnique` is the one standard rendering |
| `Dashboard.UserScorePreorder` | board.py:111 | The user-score order is a total preorder |
| `Dashboard.SelectIsConjunction` | board.py:91-102 | The four branches together equal one filter: the year is in the window and, for each non-empty selection, the label is selected and offered |
| `Dashboard.SelectExact` | board.py:95-102 | The selection is an order-preserving subsequence of the table, keeping each wanted row as often as it occurs and no other row |
| `Dashboard.SelectSound` | board.py:93-102 | A kept row is a table row with lo <= year < hi (a row of year hi is excluded) and, for each non-empty selection, a label both selected and offered |
| `Dashboard.SelectComplete` | board.py:91-102 | When the labels cover the table, every row in the window with selected labels (or an empty selection) is kept |
| `Dashboard.EmptySelectionsFilterYearsOnly` | board.py:101-102 | With both selections empty, the result is the year-window filter of the whole table |
| `Dashboard.UnknownLabelsSelectNothing` | board.py:91-100 | A non-empty selection naming no offered label selects nothing |
| `Dashboard.EmptyWindowSelectsNothing` | board.py:93-102 | A window with hi <= lo selects nothing |
| `Dashboard.ViewFrames` | board.py:103-111 | The area frame is the selection; the scatter frame is a permutation of it, ascending by user score |
| `Dashboard.Board.constructor` | board.py:14-25 | The dashboard starts with the prepared table and empty history lists |
| `Dashboard.Board.UpdateDash` | board.py:88-120 | Each call, run on its own, appends exactly one entry to each history list and answers from the entries just appended, i.e. the call's own arguments |
| `Scenario.SampleShooters` | board.py:91-98 | On the sample records, genre "Shooter" for 2000-2009 gives the two shooters with quantities 2 and 1 |
| `Scenario.SampleRatingE` | board.py:99-100 | On the sample records, rating "E" for 2000-2001 gives only the sports game |
| `Scenario.TwoCalls` | board.py:76-93 | Two calls on a dashboard with empty history lists leave one entry per call; each answer is the outputs for that call's own arguments |
| `Scenario.SampleSession` | board.py:88-118 | A dashboard started on the sample records answers the Shooter query with rows A and C and the text "Selected games quantity: 16", then the rating-E query with row B |
| `Scenario.SamplePrepared` | board.py:14-22 | The sample's record with a missing critic score is dropped and the rest carry their group sizes |

## Left out

- Reading `games.csv` and resolving its path (board.py:14): file I/O. The raw table is an input sequence.
- The Dash application, its layout and the callback registration (board.py:10-12, 27-74, 80-87). This includes the slider bounds and marks (board.py:69-72) and the dropdown options built from the label lists. It also covers the server start (board.py:123-124). All of this is UI framework.
- The Plotly figures (board.py:105-110, 112-117) and the `print` (board.py:119): rendering and I/O. The model returns the frames handed to them.
- Float columns: years are integers and scores an ordered integer key. No floating-point arithmetic is involved.
- The initial dropdown values are plain strings (board.py:38, 47), which makes `i in chosen` a substring test. The model takes every selection as a list of labels.
- A dropdown value of `None` makes `i in None` fail at board.py:91. The model has no such value: a selection is a list.
- Dashboard.Board.UpdateDash: calls are modelled one at a time. The history lists are module globals shared by every request, and `app.run_server` (board.py:124) runs a threaded server. Two overlapping calls can interleave between the appends of board.py:89-90 and the reads of board.py:91-92, so one call can answer with the other call's selection. Threads are not modelled.
- Dashboard.Board.UpdateDash: requires a slider value of at least two years. With fewer, board.py:93 raises `IndexError` after the appends of board.py:89-90 have run. The range slider always sends two values, so that failure is not modelled.
- Preparation.OuterMerge: pandas orders an outer merge by its keys. The model keeps the left table's order and appends the right-only groups. The two orders agree at board.py:20: no right-only group occurs there (`OuterMergeMatched`), and the left table is already key-sorted.
- Preparation.GroupCounts: groups are listed in first-appearance order, where `groupby` sorts its keys. The merge result does not depend on that order.
- Seqs.Unique: the first-appearance order of `unique()` is modelled but not stated in the contract.
- Sorting.SortBy: the model's insertion sort keeps equal rows in their order. That matches the stable multi-column sort of board.py:16, but stability is not stated in the contract. The single-column sort of board.py:111 uses an unstable algorithm, so there only ordering and permutation are claimed.
