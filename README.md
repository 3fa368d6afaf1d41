# birds_2021 in Dafny

`birds_2021.py` is a short pandas script run over an eBird checklist export.
It answers two questions: how many birds were reported in 2021, and which
species appear on the most checklists. It works in two phases.

- **Cleaning.** It builds a frame `birds` step by step, in place:
  - projects nine columns;
  - renames three headers and lower-cases all of them;
  - drops the rows whose `date` string sorts before `"2021-01-01"`;
  - drops `date` and `time`, parses `date_and_time` and calls it `time`;
  - cuts `state` down to its last two characters and joins it to `county` as `county_state`;
  - drops `state` and `county`.
- **Summaries.** It then works on two copies of `birds`:
  - the first drops the rows whose count is the sentinel `"X"`, converts the remaining counts to integers and adds them up;
  - the second counts the distinct checklist ids, counts the rows per species that have a time, and lists the 25 largest counts.

The project models this as follows.

- `outcomes.dfy` (`Outcomes`): `Option`, `Result`, and the Python exceptions the script can raise (`KeyError`, `TypeError`, `ValueError`, `AttributeError`).
- `strings.dfy` (`Strings`): the `str` operations the script uses:
  - Python's `<` on strings;
  - ASCII `lower()`;
  - `s[-2:]`;
  - `int()` on text, with the `int(str(n)) == n` round trip.
- `frames.dfy` (`Frames`): the data model.
  - A cell is `Text`, `Num`, `Stamp` (a parsed timestamp) or `Missing` (NaN/NaT). A `Table` is a header plus rows.
  - The pandas operations are pure functions: column lookup, projection, renaming, row and column drops, column assignment, comparison masks, `.str[-2:]` and `+` on object columns.
  - The class `Frame` is the mutable DataFrame. Its methods change `columns` and `rows` in place, each specified by one of those functions.
- `aggregates.dfy` (`Aggregates`): the pure summaries:
  - `astype(int)` and `sum()`;
  - `unique()` and its length;
  - `groupby('common')['time'].count()`;
  - `sort_values(ascending=False).head(25)`.
- `headers.dfy` (`Headers`): the header lists at each stage, and the positions the script's lookups resolve to.
- `birds2021.dfy` (`Birds2021`): the script itself, in two forms.
  - A one-shot reference: `Dated`, `CleanRows`, `Cleaning`, `BirdTotal`, `Summary` and `Expected`.
  - The imperative pipeline: `CleanBirds`, `TotalBirds`, `Frequency` and `Run`. It mutates a `Frame` line by line and is proved to compute exactly the reference.
- `properties.dfy` (`Birds2021Properties`): what the script promises, proved about the reference.

`pd.to_datetime` is a parameter `toDatetime: Cell -> Cell`: the model says where it is applied, not what it computes.

The script has no year mode, no start/end window, no `Date`/`date` column fallback and no tie-break on the species name:
- the date filter is the single comparison `date < '2021-01-01'` on line 22;
- ties among equal counts are left in an unspecified order.

The fixture in `conftest.py` and the expectations in `test_1.py` exercise helper functions that the script does not define. They are used only as example data, in the fixture lemmas.

## Model

| member | source | states |
|---|---|---|
| Strings.Below | birds_2021.py:22 | Python's `<` on strings: code point by code point, a proper prefix first |
| Strings.BelowIrreflexive | birds_2021.py:22 | no string sorts before itself under Python's `<`, so the cutoff date itself is never dropped |
| Strings.BelowTransitive | birds_2021.py:22 | Python's string order is transitive |
| Strings.BelowTotal | birds_2021.py:22 | two different strings are always ordered one way or the other |
| Strings.Lower | birds_2021.py:18 | `lower()` on a whole string, character by character |
| Strings.LowerChar | birds_2021.py:18 | `lower()` on one character: upper-case ASCII letters move up by 32 to their lower-case form, everything else is unchanged, and the result is never upper-case |
| Strings.LowerIsLower | birds_2021.py:18 | every lower-cased header is in lower case |
| Strings.LowerFixes | birds_2021.py:18 | a string is its own `lower()` exactly when it has no upper-case letter |
| Strings.LowerIdempotent | birds_2021.py:18 | lower-casing twice is lower-casing once |
| Strings.LastTwo | birds_2021.py:28 | `s[-2:]` has length min(2, len(s)) and is a suffix of `s` |
| Strings.ParseInt | birds_2021.py:38 | `int()` on text succeeds exactly on an optionally signed run of digits, and the sign decides the sign of the result |
| Strings.ParseShow | birds_2021.py:38 | `int(str(n)) == n` for every integer |
| Frames.IndexOf | birds_2021.py:22 | a label lookup finds the first column with that label, and fails exactly when there is none |
| Frames.Positions | birds_2021.py:12-13 | the positions of the kept labels: defined exactly when all are present, otherwise a KeyError naming a missing one |
| Frames.Column | birds_2021.py:22 | `t[name]` is a KeyError exactly when `name` is absent, and otherwise holds each row's cell under that label |
| Frames.Project | birds_2021.py:12-13 | `t[cols]` has exactly the listed columns, in order, and the same number of rows; it is a KeyError naming a missing label otherwise |
| Frames.ProjectKeepsCells | birds_2021.py:12-13 | projection leaves every kept column's cells unchanged |
| Frames.Renamed | birds_2021.py:17 | `rename(columns=m)` maps each label found in `m` and leaves every other label as it is |
| Frames.LowerAll | birds_2021.py:18 | the new header list lower-cases each label in place |
| Frames.KeptPositions | birds_2021.py:23 | the positions that survive a column drop: exactly the columns not named, in increasing order |
| Frames.ColumnsDropped | birds_2021.py:23 | `drop(columns=names)` fails with a KeyError naming a missing label, and otherwise keeps every row |
| Frames.ColumnsDroppedLabels | birds_2021.py:30 | after a column drop, a label remains exactly when it was there and was not named |
| Frames.Where | birds_2021.py:22 | the elements whose keep flag is set, in order; the `drop(t[mask].index)` idiom passes the negated mask |
| Frames.WhereMembers | birds_2021.py:22 | filtering by a keep mask keeps exactly the flagged elements |
| Frames.WhereAppend | birds_2021.py:37 | dropping rows from a concatenation drops from each part, so the order of the survivors is kept |
| Frames.FieldWhere | birds_2021.py:37-38 | reading a column after dropping rows is dropping the same rows from the column |
| Frames.RowsDropped | birds_2021.py:22 | dropping rows keeps the header and a well-formed table |
| Frames.RowsDroppedMembers | birds_2021.py:22 | the remaining rows are exactly the input rows whose drop flag is clear |
| Frames.WithColumn | birds_2021.py:28-29 | `t[name] = cells` keeps the header when `name` exists and appends it otherwise, with the row count unchanged |
| Frames.WithColumnCells | birds_2021.py:28-29 | after `t[name] = cells` the column holds `cells`, and every other column is unchanged |
| Frames.CellBelow | birds_2021.py:22 | `cell < '2021-01-01'` on an object column: NaN compares false, text uses string order, and a number or timestamp is a TypeError |
| Frames.BelowMask | birds_2021.py:22 | the comparison mask is a TypeError exactly when some cell is not comparable, and otherwise agrees with the cell comparison row by row |
| Frames.BelowMaskAppend | birds_2021.py:22 | the comparison mask of a concatenation is the concatenation of the masks |
| Frames.EqualMask | birds_2021.py:37 | `column == 'X'` flags exactly the cells equal to `"X"` |
| Frames.StrAccessible | birds_2021.py:28 | the columns `.str` accepts: some text, numbers mixed with timestamps, or nothing but NaN |
| Frames.SliceLastTwo | birds_2021.py:28 | on a column `.str` accepts, `.str[-2:]` gives the last two characters of text, and NaN for anything else |
| Frames.SliceColumn | birds_2021.py:28 | `.str[-2:]` on a column raises AttributeError exactly when the column has a non-NaN cell and holds only numbers or only timestamps besides NaN; otherwise it slices every text cell and gives NaN for the rest |
| Frames.Plus | birds_2021.py:29 | `+` on object cells: NaN propagates, text concatenates, numbers add, any other mix is a TypeError |
| Frames.PlusColumns | birds_2021.py:29 | column `+` is a TypeError exactly when some pair cannot be added, and otherwise adds row by row |
| Frames.Frame.constructor | birds_2021.py:13 | a frame holding a given table |
| Frames.Frame.Copy | birds_2021.py:35 | `copy()` is a fresh frame with the same contents |
| Frames.Frame.Rename | birds_2021.py:17 | in-place rename: the new header is the renamed old one and the rows are untouched |
| Frames.Frame.SetColumns | birds_2021.py:18 | assigning `columns` succeeds exactly when the lengths agree; otherwise it raises ValueError and changes nothing |
| Frames.Frame.DropRows | birds_2021.py:22 | in-place row drop: the new contents are the old table without the flagged rows |
| Frames.Frame.DropColumns | birds_2021.py:23 | in-place column drop: the new contents are the dropped table, or unchanged on a KeyError |
| Frames.Frame.Assign | birds_2021.py:24 | in-place column assignment: the new contents are the old table with that column set |
| Aggregates.CellToInt | birds_2021.py:38 | `astype(int)` on a cell: numbers stay, text is read by `int()` or raises ValueError, NaN raises ValueError, a timestamp raises TypeError |
| Aggregates.AsIntCells | birds_2021.py:38 | converting a column succeeds exactly when every cell converts, and then holds each cell's integer |
| Aggregates.AsInt | birds_2021.py:38 | `astype(int)` on a column: on failure the error of the first cell that fails, otherwise one integer per cell |
| Aggregates.AsIntAppend | birds_2021.py:38 | converting a concatenation converts each part |
| Aggregates.Sum | birds_2021.py:40 | `sum()` of an integer column, zero when it is empty |
| Aggregates.SumAppend | birds_2021.py:40 | the sum of a concatenation is the sum of the sums |
| Aggregates.Distinct | birds_2021.py:46 | `unique()` holds exactly the values in the column, with NaN once, and no more of them than rows |
| Aggregates.UniqueCount | birds_2021.py:46 | the number of checklists is at most the number of rows, and at least one when there are rows |
| Aggregates.UniqueCountAllDistinct | birds_2021.py:46 | the number of distinct ids equals the row count exactly when no id repeats |
| Aggregates.Keys | birds_2021.py:48 | the group keys are exactly the non-NaN species names, each once |
| Aggregates.GroupCount | birds_2021.py:48 | one group per non-NaN species, each named once, each with its count of rows that have a time |
| Aggregates.GroupCountTotal | birds_2021.py:48 | the counts of all species add up to the number of rows with both a species and a time, which is at most the row count |
| Aggregates.InsertOrdered | birds_2021.py:50 | inserting into a list ordered by count keeps it ordered |
| Aggregates.SortByCount | birds_2021.py:50 | `sort_values(by='count', ascending=False)` is a permutation with non-increasing counts |
| Aggregates.Top | birds_2021.py:50 | `head(25)` after the sort: min(25, n) entries, non-increasing, drawn from the groups, and no group left out has a larger count than one kept |
| Aggregates.HeadDominates | birds_2021.py:50 | a prefix of an ordered list dominates everything after it |
| Headers.NormalisedHeaders | birds_2021.py:15-18 | renaming then lower-casing the nine kept headers gives `date_and_time, id, common, count, state, county, location, date, time`, each its own lower case |
| Headers.RenamedHeaders | birds_2021.py:15-17 | `Submission ID`→`id`, `Common Name`→`common`, `State/Province`→`state`; the other headers keep their text |
| Headers.TrimmedLayout | birds_2021.py:23 | dropping `date` and `time` keeps the first seven columns |
| Headers.CleanedLayout | birds_2021.py:30 | dropping `state` and `county` leaves `time, id, common, count, location, county_state` |
| Headers.RetitledHeaders | birds_2021.py:25 | renaming `date_and_time` to `time` leaves the other six labels |
| Headers.LookupNormalised | birds_2021.py:22-24 | `date` is found at position 7 of the normalised header and `date_and_time` at position 0 after the drop |
| Headers.LookupRetitled | birds_2021.py:28-29 | `state` and `county` are found at positions 4 and 5, and `county_state` is new |
| Headers.LookupCleaned | birds_2021.py:37-48 | `time`, `id`, `common` and `count` are found at positions 0 to 3 of the cleaned header |
| Birds2021.Dated | birds_2021.py:12-22 | the date filter keeps at most the input rows, each with the nine projected cells |
| Birds2021.CountyState | birds_2021.py:28-29 | `county + ', ' + state[-2:]` is the joined text when both are text, NaN when the county is NaN or the state is not text, and a TypeError exactly when the county is a number or a timestamp |
| Birds2021.CleanRows | birds_2021.py:23-30 | cleaning keeps every filtered row, six cells wide; it stops with AttributeError when `.str` refuses the state column, and otherwise with the first TypeError of the join |
| Birds2021.Cleaning | birds_2021.py:12-30 | the cleaned frame is well-formed, with the header `time, id, common, count, location, county_state` |
| Birds2021.Counted | birds_2021.py:37 | the count column without its `"X"` cells, never longer than the column |
| Birds2021.BirdTotal | birds_2021.py:37-40 | the printed total: drop the `"X"` counts, convert the rest with `astype(int)`, add them up |
| Birds2021.Summary | birds_2021.py:37-50 | both printed figures of a cleaned table: the bird total of the count column, stopping with its ValueError or TypeError, then the number of distinct ids and the top 25 species by count of timed rows |
| Birds2021.Expected | birds_2021.py:12-50 | the whole script as one function: cleaning, then the total and the summary, or the first error |
| Birds2021.JoinColumns | birds_2021.py:29 | `county + ', ' + state` on two columns, as two column-wise `+` |
| Birds2021.CleanBirds | birds_2021.py:12-30 | the in-place cleaning produces a fresh frame holding exactly the reference cleaned table, or the reference's error |
| Birds2021.DatedFrame | birds_2021.py:12-22 | projecting, renaming, lower-casing and dropping early rows in place yields exactly the reference filter's rows under the normalised header |
| Birds2021.NormalisedFrame | birds_2021.py:12-18 | the frame after lines 12-18 holds the projected rows under the normalised header |
| Birds2021.DropEarly | birds_2021.py:22 | the in-place date drop removes exactly the rows whose date sorts before the cutoff, or raises TypeError and changes nothing |
| Birds2021.Tidy | birds_2021.py:23-30 | lines 23-30 in place turn the filtered frame into exactly the reference's cleaned rows, or stop with its error |
| Birds2021.Retime | birds_2021.py:23-25 | after the drop, the parse and the rename, the frame holds the first seven cells of each row with the timestamp parsed |
| Birds2021.JoinCountyState | birds_2021.py:28-30 | the frame ends with `county_state` in place of `state` and `county`; it stops with AttributeError and no change when `.str` refuses the state column, or with the TypeError of the join |
| Birds2021.DropDateTime | birds_2021.py:23 | dropping `date` and `time` from the normalised table keeps each row's first seven cells |
| Birds2021.DropStateCounty | birds_2021.py:30 | dropping `state` and `county` keeps cells 0-3, 6 and 7 of each row |
| Birds2021.Assembled | birds_2021.py:28-30 | the column-wise join, followed by the drop, gives the same rows as the row-wise reference |
| Birds2021.JoinedCountyState | birds_2021.py:28-29 | the column `county + ', ' + state.str[-2:]` is the row-wise `CountyState`, failing exactly when one row fails |
| Birds2021.TotalBirds | birds_2021.py:35-40 | on a copy, and leaving `birds` unchanged, the total is the reference `BirdTotal` of the count column |
| Birds2021.Frequency | birds_2021.py:44-50 | on a copy, the checklist count is the number of distinct ids and the list is the top 25 of the per-species counts |
| Birds2021.Run | birds_2021.py:12-50 | the imperative script computes exactly `Expected`, the reference result, errors included |
| Birds2021Properties.DatedKept | birds_2021.py:22 | a row survives the date filter exactly when it is the projection of some input row and its date is not ordered before `2021-01-01` (NaN dates survive) |
| Birds2021Properties.DatedAppend | birds_2021.py:22 | the filter works row by row: filtering a concatenation concatenates the filtered parts, so the input order is kept |
| Birds2021Properties.DatedKeyErrors | birds_2021.py:12-13 | projecting the export fails with a KeyError exactly when a kept column is missing, and the error names such a column |
| Birds2021Properties.DatedTypeErrors | birds_2021.py:22 | with every kept column present, the date filter fails exactly when some `Date` cell is neither text nor NaN, and then with a TypeError |
| Birds2021Properties.LaterDatesKept | birds_2021.py:22 | a string that sorts after a kept date is kept too |
| Birds2021Properties.CutoffBoundary | birds_2021.py:22 | `2020-12-31` is dropped and `2021-01-01` is kept; `6/20/2014` is kept too, because the comparison is on strings |
| Birds2021Properties.CleanedRow | birds_2021.py:23-30 | each cleaned row is its filtered row with the time parsed, id, species, count and location copied, and `county_state` the row's county joined to its state |
| Birds2021Properties.NumericStatesRefused | birds_2021.py:28 | when every remaining state cell is a number, the script stops at `.str` with AttributeError |
| Birds2021Properties.CountedMembers | birds_2021.py:37 | after the sentinel drop no count is `"X"`, and every other count is still there |
| Birds2021Properties.CountedAppend | birds_2021.py:37 | the sentinel drop works row by row and keeps the other rows in order |
| Birds2021Properties.CountedFixture | conftest.py:17 | the counts `100, 'X', 300, 400` become `100, 300, 400`, as test_1.py:88-109 expects |
| Birds2021Properties.BirdTotalCell | birds_2021.py:37-40 | one row contributes nothing if its count is `"X"`, otherwise its integer value or the conversion's error |
| Birds2021Properties.BirdTotalAppend | birds_2021.py:37-40 | the total is additive over a split of the rows, and fails exactly when a part fails |
| Birds2021Properties.BirdTotalOk | birds_2021.py:37-38 | the total exists exactly when every count other than `"X"` converts to an integer |
| Birds2021Properties.BirdTotalFixture | conftest.py:17 | the fixture's counts total 800 |
| Birds2021Properties.IdTotalFixture | test_1.py:111-112 | the column sum of the fixture's ids `1234, 2345, 3456, 4567` is 11602 |
| Birds2021Properties.SummaryBounds | birds_2021.py:46-50 | for every cleaned table: checklists at most the rows; at most 25 species, in non-increasing order, each with the count of its timed rows; all species' counts together at most the rows |
| Birds2021Properties.FrequencyIgnoresCounts | birds_2021.py:44-50 | the frequency figures do not depend on the count column, so rows counted `"X"` still count there |

## Left out

- Reading `MyEBirdData.csv` and the merging of columns 11 and 12 into `date_and_time` (birds_2021.py:9-10): file I/O and library date inference. The model starts from a `Table`.
- `pd.to_datetime` (birds_2021.py:24): library date parsing. It is the parameter `toDatetime`, applied cell by cell. pandas infers one format for the whole column and raises on a value it cannot parse; neither the inference nor those errors are modelled.
- The two `print` calls and their formatting (birds_2021.py:40, 50): console output. `Report` holds what is printed.
- The `frequency` column, `count / number_of_checklists` (birds_2021.py:49): floating point. `Report` keeps the count and the number of checklists from which it is computed.
- Aggregates.Top: does not fix the order among species with equal counts, because pandas' default sort is not stable. Likewise, the alphabetical key order of `groupby` is not modelled.
- Aggregates.Sum: unbounded; int64 overflow of `astype(int)` and `sum()` is not modelled.
- Strings.ParseInt: accepts only an optional sign and ASCII digits; the surrounding whitespace, underscores and non-ASCII digits that `int()` also accepts are not modelled.
- Strings.LowerChar: ASCII only; `str.lower()` on other letters is not modelled.
- Frames.IndexOf: assumes labels are unique. pandas' behaviour with duplicate labels (a lookup returning several columns) is not modelled.
- Column dtypes: a column is a list of cells of mixed kinds, as in an object column. pandas' dtype inference on load is not modelled. In particular a column that is entirely empty loads as float64: pandas then raises TypeError for `date < '2021-01-01'` (line 22), AttributeError for `.str` on the state column (line 28) and TypeError for `county + ', '` (line 29), while the model treats it as an object column of NaN, giving all-false flags and NaN joins.
- Frames.Frame.DropRows: rows are identified by position. The pandas index that `drop(... .index)` relies on is assumed to be the default, unique index that `read_csv` creates.
- Birds2021.TotalBirds: the conversion at line 38 writes the integers back into the copy, which is then only summed. The model keeps the assignment and proves only the sum.
