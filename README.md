# Employee ETL pipeline — a Dafny model

This project models the core of the `process_employees_etl_pipeline` Airflow
DAG (`dags/process_employees.py`). One run of the DAG:

1. recreates the staging table `employees_temp` (and creates `employees` if it
   does not exist), both keyed by `Serial Number`;
2. downloads a CSV file and validates its header line (`validate_data`);
3. transforms the records (`transform_data`): one processing timestamp for all
   rows, `Company Name` title-cased, `Description` capitalized, and a
   `Leave Category` obtained by cutting `Leave` into the bins (-1, 0], (0, 2],
   (2, +inf) labelled Low, Medium and High;
4. loads the transformed file into `employees_temp` with a positional `COPY`
   (`load_data`);
5. upserts the staging rows into `employees` (`merge_data`): new serial numbers
   are inserted, existing ones take every incoming column except
   `Company Name`.

The modules follow that structure:

- `PyStr` — the Python string operations the code relies on: `strip()` with
  Python's whitespace set, `readline()` with universal newlines,
  `split(",")`/`join`, `title()` and `capitalize()` (ASCII letters).
- `Schema` — column names, the expected header and both table layouts.
- `Validation` — `validate_data` on the text of the file.
- `Binning` — `pd.cut` with right-closed bins, and the leave categorisation.
- `Cells` — cell values (`Null` for NaN / SQL NULL, integers, text) and the
  per-cell rules of the transform.
- `Frame` — a pandas DataFrame as a class whose column assignment replaces a
  column in place or appends it at the end.
- `Transform` — `transform_data` as a method on a DataFrame, proved against a
  specification by column name (including the `KeyError`, `AttributeError`
  and `TypeError` it raises), which is then related to a row-wise one.
- `Warehouse` — the two tables, the `COPY` load with its error cases, the
  upsert, and a `Database` class whose `MergeData` applies the staging rows one
  at a time.
- `Pipeline` — a whole run, as a function and as a method chaining the Airflow
  steps on a `Database`.

The frame that `transform_data` builds takes its column names from the file's
first line as it stands: `pd.read_csv` splits that line on "," and keeps any
whitespace in the names, while `validate_data` compares the line after
`strip()`. The two checks therefore disagree on a header line with whitespace
after `Leave` (a line end, `\n`, `\r` or `\r\n`, is not part of the line for
either): it passes validation, the frame's last column is then `Leave` followed by that
whitespace, and `df["Leave"]` raises `KeyError`. The model keeps this
behaviour (`Pipeline.TrailingSpaceRefused`); whitespace before
`Serial Number` is harmless, since that column is only ever used by position.

Three details of the re-casing and binning in `transform_data` are easy to
misread, and the model follows the code in each:

- `Description` goes through `str.capitalize()`, which upper-cases the first
  character and also lower-cases every character after it.
- `Leave Category` comes from the bins `(-1, 0]`, `(0, 2]`, `(2, +inf)`, so a
  leave of 0 is `Low`, and a leave of -1 or below gets no category at all.
- `Company Name` goes through `str.title()`, which starts a new word after any
  non-letter (an apostrophe or a digit included, not only whitespace) and
  lower-cases the other letters of each word.

## Model

| member | source | states |
|---|---|---|
| Validation.ValidateData | dags/process_employees.py:22-31 | passes exactly when the first line, stripped of outer whitespace, is the five header names joined by ","; otherwise fails with the header-mismatch `ValueError` |
| Validation.HeaderLineIff | dags/process_employees.py:23-30 | splitting a line on "," yields the expected header list if and only if the line is exactly the comma-joined header |
| Validation.LineFields | dags/process_employees.py:23 | a first line that is comma-free fields joined by ",", with no line end inside and no whitespace at its two ends, splits back into exactly those fields, whatever follows the line end |
| Validation.ValidateFields | dags/process_employees.py:23-31 | for a first line made of comma-free fields, with no line end inside and no whitespace at its two ends, validation passes if and only if the fields are the expected header in order: no reordering, omission, extra or renamed column passes |
| Validation.OnlyFirstLine | dags/process_employees.py:22-23 | the verdict depends on the first line only; whatever follows it never changes it |
| Validation.PaddedHeaderAccepted | dags/process_employees.py:23 | the expected header surrounded by whitespace, and ended by any line terminator, is accepted |
| Validation.ValidatedNames | dags/process_employees.py:22-31 | a file that passes has, as its first line, the expected line with only whitespace around it, so `HeaderNames`, the names `pd.read_csv` keeps (that line split on ",", :117), are the five names with the whitespace kept on the first and the last |
| Validation.LineRejected | dags/process_employees.py:23-31 | a first line without outer whitespace that differs from the expected line is refused |
| Validation.SpacedHeaderRejected | dags/process_employees.py:23-31 | a header with a space after each comma is refused: only outer whitespace is stripped |
| Validation.ByteOrderMarkRejected | dags/process_employees.py:22-31 | a header preceded by a byte order mark is refused, since it is not whitespace and the file is opened without stripping it |
| Validation.EmptyFileRejected | dags/process_employees.py:22-31 | an empty file is refused |
| PyStr.Strip | dags/process_employees.py:23 | the result has no outer whitespace and is no longer than the input |
| PyStr.LStrip | dags/process_employees.py:23 | the result is a suffix of the input, the removed prefix is all whitespace, and the result does not start with whitespace |
| PyStr.RStrip | dags/process_employees.py:23 | the result is a prefix of the input, the removed suffix is all whitespace, and the result does not end with whitespace |
| PyStr.StripParts | dags/process_employees.py:23 | a text is its stripped form with a run of whitespace on each side |
| PyStr.StripOuter | dags/process_employees.py:23 | stripping whitespace around a text that has none at its ends gives back exactly that text |
| PyStr.FirstLine | dags/process_employees.py:23 | the first line is a prefix of the text holding no line end, and is followed by a line end or by nothing |
| PyStr.ReadLine | dags/process_employees.py:23 | `readline()` is the first line followed by `\n` when a line end follows it, and the first line alone at the end of the text |
| PyStr.ReadLineFirst | dags/process_employees.py:23 | `readline()` returns the text up to the first `\n`, `\r` or `\r\n`, with the terminator read as `\n` |
| PyStr.ReadLineWhole | dags/process_employees.py:23 | a text without line terminator is read whole |
| PyStr.LinePadding | dags/process_employees.py:23 | when the line read, stripped, is a text with no outer whitespace (the empty text included), the first line is that text with whitespace around it; a line that strips to nothing is all whitespace |
| PyStr.Split | dags/process_employees.py:23 | `split` yields at least one piece and no piece holds the separator |
| PyStr.JoinSplit | dags/process_employees.py:23 | joining the pieces of a split with the separator gives back the text |
| PyStr.SplitJoin | dags/process_employees.py:23 | splitting the join of separator-free pieces gives back the pieces |
| PyStr.Title | dags/process_employees.py:123 | same length; a letter at the start or after a non-letter is uppercased, a letter after a letter is lowercased |
| PyStr.TitleKeepsShape | dags/process_employees.py:123 | title-casing keeps which characters are letters and leaves every non-letter unchanged |
| PyStr.TitleIdempotent | dags/process_employees.py:123 | title-casing twice is title-casing once |
| PyStr.Capitalize | dags/process_employees.py:124 | same length; the first character uppercased, every other character lowercased |
| PyStr.CapitalizeIdempotent | dags/process_employees.py:124 | capitalizing twice is capitalizing once |
| PyStr.CaseAbsorbs | dags/process_employees.py:123-124 | upper- and lowercasing a character absorb each other |
| Schema.Layouts | dags/process_employees.py:57-81 | the header names are distinct; `employees_temp` is the header followed by the two derived columns, and `employees` has the same columns in the same order |
| Binning.BinIndex | dags/process_employees.py:125-127 | the result is the first bin (edges[i], edges[i+1]] holding the value, and none exactly when no bin holds it |
| Binning.BinsDisjoint | dags/process_employees.py:125-127 | with increasing edges a value lies in at most one bin |
| Binning.LeaveBinsIncreasing | dags/process_employees.py:126 | the leave bin edges are strictly increasing |
| Binning.LeaveCategory | dags/process_employees.py:125-127 | a category, when there is one, is one of the three labels |
| Binning.LeaveCategoryBoundaries | dags/process_employees.py:125-127 | -1 and below get no category, 0 is Low, 1 and 2 are Medium, 3 and above are High |
| Binning.LeaveCategoryMonotone | dags/process_employees.py:125-127 | more leave never gives a lower category, and never loses the category |
| Cells.TitleCell | dags/process_employees.py:123 | a text cell is title-cased; a missing or numeric cell becomes NaN |
| Cells.CapitalizeCell | dags/process_employees.py:124 | a text cell is capitalized; a missing or numeric cell becomes NaN |
| Cells.CategoryCell | dags/process_employees.py:125-127 | the category cell is NaN or one of Low, Medium, High, and is only set for an integer leave |
| Cells.CellRulesIdempotent | dags/process_employees.py:123-124 | the two re-casing rules are idempotent on every cell |
| Cells.CategoryCellBoundaries | dags/process_employees.py:125-127 | a missing leave or one of -1 and below gives NaN, 0 Low, 1 and 2 Medium, 3 and above High |
| Cells.MapColumn | dags/process_employees.py:123-127 | a vectorised rule keeps the column's length and applies the rule to each cell in place |
| Cells.Broadcast | dags/process_employees.py:122 | assigning a scalar gives a column of that value on every row |
| Frame.IndexOf | dags/process_employees.py:122-127 | a column is found at the first position holding its name |
| Frame.Assigned | dags/process_employees.py:122-127 | after assigning a column its name is present, and the names are exactly the old ones and that one |
| Frame.ColumnOf | dags/process_employees.py:123-127 | column k of a table given by rows has one cell per row, cell r being row r's k-th cell |
| Frame.RowsOf | dags/process_employees.py:130 | row r of the written file lists cell r of every column, in column order |
| Frame.DataFrame.constructor | dags/process_employees.py:117 | the frame read from a file has its header as columns, one column of cells per name, and its records as rows |
| Frame.DataFrame.Rows | dags/process_employees.py:130 | the frame row by row has one row per record and one cell per column |
| Frame.DataFrame.Column | dags/process_employees.py:123-126 | `df[name]` is the cell of that column in every row, in row order |
| Frame.DataFrame.SetColumn | dags/process_employees.py:122-127 | assigning an existing column replaces it where it stands; a new column is appended last; no other column changes |
| Transform.OutColumns | dags/process_employees.py:122-127 | the written header holds the file's names and the two new ones, and nothing else |
| Transform.Assign | dags/process_employees.py:122-127 | any one of the four column assignments, selected by its step, sets that column to the values of the next stage of the specification by name and so moves the frame to that stage |
| Transform.Recase | dags/process_employees.py:123-124 | `df[name].str.title()` / `.str.capitalize()`: `KeyError` when the column is missing, `AttributeError` when it was not read as text, the frame untouched on either error, and otherwise the column re-cased, cell by cell, at its place in the frame |
| Transform.Categorize | dags/process_employees.py:125-127 | `pd.cut` of `Leave`: `KeyError` when the column is missing, `TypeError` when it holds text, the frame untouched on either error, and otherwise `Leave Category` set to the category of each row's leave |
| Transform.TransformData | dags/process_employees.py:117-130 | the method on the DataFrame ends with the result of `Transform.Transform`, the specification by column name: the first error in the order the columns are used, or the header with the two new columns and every row transformed cell by cell |
| Transform.TransformRow | dags/process_employees.py:122-127 | a record in the expected layout becomes seven cells: its five with company name title-cased and description capitalized, then the timestamp and the category of its leave |
| Transform.RowByName | dags/process_employees.py:122-130 | with the expected layout, transforming a row by column name gives the positional transform of that row |
| Transform.TransformPositional | dags/process_employees.py:117-130 | with the expected layout the transform succeeds exactly when both text columns were read as text and the leave column holds no text, and then writes the header with the two new columns and every row transformed in order |
| Transform.MissingLeave | dags/process_employees.py:125 | with the two text columns in place and both read as text, but no column named `Leave`, the transform raises `KeyError` for `Leave` |
| Transform.SharedTimestamp | dags/process_employees.py:119-122 | every row of a run carries the same timestamp |
| Transform.TransformIdempotent | dags/process_employees.py:122-127 | transforming a transformed record again changes nothing but its timestamp |
| Warehouse.AsTable | dags/process_employees.py:73-74 | a table keyed by serial number holds exactly the serial numbers of its rows |
| Warehouse.AsTableLookup | dags/process_employees.py:73-74 | with distinct serial numbers each row is found under its own serial number |
| Warehouse.CopyFrom | dags/process_employees.py:145-150 | the copy succeeds exactly when every record has seven values, a numeric serial number, a leave that is missing or fits a 4-byte INTEGER, and a serial number not yet in the table; it then appends the records in file order; a failure names a record that has the defect it reports |
| Warehouse.CopyStep | dags/process_employees.py:145-150 | a serial number already present makes the whole copy fail, and a fresh one keeps the key unique |
| Warehouse.Copy | dags/process_employees.py:145-150 | `COPY` into a table as it stands: the records are appended exactly when each can be stored and no serial number repeats; otherwise the error names a record, counted from 0, with the reported defect |
| Warehouse.ResolveConflict | dags/process_employees.py:167-173 | on a conflict the row keeps its company name and takes every other incoming column |
| Warehouse.Upsert | dags/process_employees.py:160-173 | the merged table holds the old and the staged serial numbers; untouched rows are unchanged, new ones are inserted as staged, conflicting ones are resolved |
| Warehouse.UpsertIdempotent | dags/process_employees.py:160-173 | merging the same staging table twice is merging it once |
| Warehouse.UpsertRefresh | dags/process_employees.py:160-173 | merging a second staging table with the same serial numbers and company names overrides the first merge completely |
| Warehouse.CompanyNameKept | dags/process_employees.py:167-173 | an existing row keeps its company name through any sequence of merges |
| Warehouse.UpsertOneMore | dags/process_employees.py:160-173 | adding one new staged row to the merge is a single-row insert or conflict resolution on top of it |
| Warehouse.MergeStep | dags/process_employees.py:160-173 | merging the first i+1 staging rows is merging the first i and then row i |
| Warehouse.Database.constructor | dags/process_employees.py:53-65 | the database starts with the existing `employees` rows and an empty staging table |
| Warehouse.Database.CreateEmployeesTempTable | dags/process_employees.py:72-81 | the staging table is dropped and recreated empty; `employees` is unchanged |
| Warehouse.Database.LoadData | dags/process_employees.py:135-150 | on success the staging table is the copy's result; on failure it is unchanged and the copy's error is reported |
| Warehouse.Database.MergeData | dags/process_employees.py:153-182 | `employees` becomes the upsert of the staging table into it, the staging table is unchanged, and 0 is returned |
| Pipeline.ValidatedLayout | dags/process_employees.py:22-31 | a file that passes validation gives the frame five distinct names with `Company Name` and `Description` in place and neither `Processed Timestamp` nor `Leave Category` among them, whatever whitespace surrounds the line; `Leave` is among them, last, exactly when the first line does not end in whitespace |
| Pipeline.PaddedLayout | dags/process_employees.py:117 | the five names with whitespace on the outer two are distinct, and have the expected layout, `Leave` included, exactly when no whitespace follows `Leave` |
| Pipeline.TransformedLoadable | dags/process_employees.py:145-150 | the transformed records can be stored exactly when every serial number is numeric and every leave fits an INTEGER, and then copy into an empty staging table exactly when the serial numbers are distinct |
| Pipeline.Incoming | dags/process_employees.py:122-127 | the row a record is staged as: its markme and leave, the run's timestamp, the re-cased text columns and the category of its leave |
| Pipeline.StagedRecords | dags/process_employees.py:145-150 | the staging rows after `load_data`: one per record, in file order, with distinct serial numbers, each the record's serial number and transformed cells |
| Pipeline.StagedKeys | dags/process_employees.py:145-150 | the staging table holds exactly the file's serial numbers |
| Pipeline.StagedAt | dags/process_employees.py:117-150 | each record is staged under its serial number with its transformed cells |
| Pipeline.LoadedStaging | dags/process_employees.py:117-150 | for validated names, the transform succeeds exactly when the layout is the expected one and the records are transformable, a missing `Leave` is a `KeyError` when the text columns are fine, and the copy of the result succeeds exactly when the records are loadable, giving the staged records |
| Pipeline.CopyTransformed | dags/process_employees.py:145-150 | the transformed records copy into an empty staging table exactly when they are loadable, and then as the staged records |
| Pipeline.LoadMerge | dags/process_employees.py:135-185 | `load_data` then `merge_data` of transformed records: succeeds exactly when every record can be stored and no serial number repeats, giving the upsert of those records into `employees`; otherwise a load error naming a record that has the reported defect |
| Pipeline.TransformLoadMerge | dags/process_employees.py:106-185 | the steps after validation succeed exactly when the layout is the expected one and the records are transformable and loadable; a transform error or a load error otherwise, and on success the upsert of the staged records |
| Pipeline.RunPipeline | dags/process_employees.py:187-191 | a run succeeds exactly when the header validates with nothing after `Leave` and the records are transformable and loadable; a bad header fails with the validation error, whitespace after `Leave` with a transform error (`KeyError` for `Leave` when the text columns are fine), untransformable records with a transform error, unloadable ones with a load error |
| Pipeline.TrailingSpaceRefused | dags/process_employees.py:117-125 | a header line with whitespace after `Leave` passes validation; when both text columns were read as text, the run then fails with `KeyError` for `Leave` |
| Pipeline.RunEffect | dags/process_employees.py:160-173 | after a run no row is deleted, rows outside the file are unchanged, new records are inserted as transformed, existing ones keep only their company name |
| Pipeline.StagedAlike | dags/process_employees.py:117-150 | two runs of a file at different times stage the same serial numbers with the same company names |
| Pipeline.RunAgain | dags/process_employees.py:160-173 | running again on the same file at a later time gives what a single run at that time gives: only the timestamps change |
| Pipeline.LeaveRaisedScenario | dags/process_employees.py:125-173 | an existing employee whose leave rises from 1 to 5 keeps the company name, takes the new values and moves from Medium to High |
| Pipeline.Run | dags/process_employees.py:187-191 | the DAG steps in order on the database: on success `employees` is the run's result and the staging table holds the transformed records; on failure `employees` is unchanged, the staging table is empty and the failing step's error is reported |

## Left out

- Downloading the file (`requests.get`), writing and reading files, and the
  fixed local paths: the model takes the file's text and records as inputs.
- CSV parsing by `pd.read_csv` and CSV writing by `to_csv` (quoting, type
  inference, float rendering): the model takes the parsed records as a
  parameter, separately from the text that validation reads, and does not
  relate the two.
- Reading the clock, converting to the Asia/Ho_Chi_Minh time zone and
  formatting with `%d-%m-%Y %H:%M:%S`: the formatted timestamp is a
  parameter. Whether PostgreSQL's `TIMESTAMP` input accepts that day-first
  format depends on the server's `DateStyle` setting, which is not modelled;
  the model stores the text as given.
- Connections, cursors, commits, rollbacks and logging of `PostgresHook`;
  a failing `COPY` leaves both tables unchanged (`Warehouse.Database.LoadData`);
  a failing merge is not modelled (see `Warehouse.Database.MergeData` below).
- Airflow scheduling, retries, timeouts and the DAG's declared dependencies:
  `Pipeline.Run` runs the DAG steps in their intended order, whereas the declared
  edges do not order `create_employees_temp_table` before `load_data`, so a
  scheduler may interleave them; concurrency is not modelled.
- `create_employees_table` only through the existing table handed to the
  `Database` constructor: an existing `employees` table with another layout is
  not modelled.
- Non-ASCII letters: `title()` and `capitalize()` change the case of ASCII
  letters only; other characters count as non-letters.
- Pipeline.RunPipeline: a `Leave` column with missing values is read by
  pandas as floats and written back as `1.0`, which `COPY` into an `INTEGER`
  column refuses; the model keeps a present leave as a whole number and lets
  such a file load, because CSV writing is not modelled.
- Fractional leave values: a cell is modelled as missing, a whole number or
  text, so a `Leave` of `1.5` (binned by `pd.cut`, refused by `COPY`) is not
  modelled.
- Transform.TransformData: the file's header names are taken to be distinct;
  pandas renames a repeated name (`X.1`), which a file that passes
  validation never has.
- Warehouse.CopyFrom: within one record the checks run in a fixed order
  (value count, serial number, leave, missing key, repeated key), so for a
  record with several defects the model reports one of them, which need not
  be the one PostgreSQL reports first.
- Warehouse.Database.MergeData: a failing merge (the `except` branch that
  logs and re-raises) is not modelled; with a staging table that already
  satisfies the key and column types the statement cannot fail except through
  the connection, which is not modelled either.
- Serial numbers are modelled as integers; `NUMERIC` keys with a fractional
  part are not modelled, and a text serial number fails the copy.
- `SELECT DISTINCT` in the merge: the staging table's primary key already
  makes its rows distinct, so it drops nothing and is not modelled separately.
