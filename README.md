# Peloton workout ETL: a Dafny model of extraction and normalisation

This project models the core of a small ETL pipeline over the Peloton API.
It covers the Airflow task `peloton_to_local` (dags/peloton_to_s3.py) and
the historical loader (historical_workouts.py). For one rider the pipeline:

- enumerates workout ids page by page, either all of them or only those that
  started on a given UTC date;
- builds an instructor directory from the roster and two fixed entries;
- turns each workout's detail record into one row. A ride with an
  `instructor` key is a lanebreak class with no instructor. Every title loses
  its apostrophes, durations become whole minutes and work becomes kilojoules;
- stores the rows in one of two places. The first is a dated CSV file, created
  with a header or appended to without one. The second is a table keyed by
  `workout_id`, with insert-if-absent and a single commit.

The HTTP answers are inputs. `Pagination.Me` stands for `/api/me`.
`Pagination.Pages` holds the `data` arrays of the workout-list pages, and
every page past the end of that sequence counts as empty. The roster is a
`seq<Instructors.Instructor>`. `/api/workout/{id}` is a total function from
id to `Normalize.WorkoutDetail`. In a detail record every key the code reads
is an `Option`, so a Python `KeyError` becomes an explicit failure
(`Normalize.KeyError`). The CSV directory is a class holding a map from path
to file lines. The database is a class holding a table-exists flag and the
committed rows.

Modules:

- `Wrappers`: Option and Result.
- `Text`: apostrophe stripping, plus decimal and two-digit rendering of numbers.
- `Calendar`: dates, the day number of a date, and the UTC day of an epoch timestamp.
- `Pagination`: what the enumerators collect.
- `Instructors`: the directory.
- `Normalize`: detail record to raw record to row, for one workout and for a batch.
- `CsvSink` and `Relational`: the two sinks.
- `PelotonToS3` and `HistoricalWorkouts`: the two entry points.

The two source files repeat the same directory code and the same normalisation
code. Each is modelled once, in `Instructors` and `Normalize`, and both entry
points use it.

Four behaviours of the code that a reader might not expect. The model follows the code in each:

- An empty id list is not an empty result, although one would expect an
  empty frame or an empty file. In the DAG task it ends in the
  "No data" sentinel, because `collection_df['date']` raises `KeyError` on an
  empty frame (dags/peloton_to_s3.py:128). In `get_user_workout_details` the
  same `KeyError` is not caught (historical_workouts.py:119).
- In a lanebreak record, `instructor_id` and `fitness_discipline` are never
  read, so a record without them still normalises. For any other record, a
  missing one of them abandons the whole batch.
- The relational sink does not roll back explicitly. An exception in the
  insert loop skips the commit, so nothing from that batch is committed.
- The file sink is not idempotent, unlike the table. Running the task twice
  for the same rider and date appends the same rows a second time
  (`CsvSink.WriteTwiceDuplicates`). The table keeps one row per
  `workout_id` (`Relational.InsertAllIdempotent`).

## Model

| member | source | states |
|---|---|---|
| `Pagination.FirstEmpty` | historical_workouts.py:47-57 | the last page requested is the first empty page: every earlier page holds data |
| `Pagination.FirstEmptyUnique` | dags/peloton_to_s3.py:46-53 | no other page number can end the loop |
| `Pagination.OnDay` | dags/peloton_to_s3.py:57-64 | the date filter of one page; specified by `Pagination.OnDayMembership` (kept iff the start day is the filter day), `Pagination.OnDaySubsequence` (order kept) and `Pagination.OnDayAppend` (page by page equals all at once) |
| `Pagination.OnDayMembership` | dags/peloton_to_s3.py:57-59 | an item is kept iff its UTC start date equals the filter date exactly |
| `Pagination.OnDaySubsequence` | dags/peloton_to_s3.py:59-64 | the kept ids keep their order among the page's ids |
| `Pagination.IdsOnDaySubsequence` | dags/peloton_to_s3.py:57-66 | the date-filtered ids are an order-preserving subsequence of all page ids |
| `Pagination.OnDayAppend` | dags/peloton_to_s3.py:64-66 | filtering page by page and concatenating equals filtering the concatenation |
| `Pagination.AllIdsUnfold` | historical_workouts.py:52-57 | page 0's ids (one per item, in item order, as `Pagination.Ids` reads them) come first, then the rest in page order; an empty page 0 yields nothing |
| `Pagination.LaterPagesIgnored` | dags/peloton_to_s3.py:52-53 | pages after the first empty one never affect either enumeration |
| `Pagination.FlattenLength` | historical_workouts.py:56 | the number of ids collected is the number of items on the pages before the first empty one |
| `Pagination.TwoFullPages` | historical_workouts.py:47-57 | pages of 100, 100 and 0 items give exactly 200 ids |
| `HistoricalWorkouts.GetUserWorkoutIds` | historical_workouts.py:28-61 | returns the `/api/me` name and `AllIds`, every id (`Pagination.Ids`) of every page before the first empty one, and requests exactly the pages `Pagination.Requests` lists: 0, 1, …, k |
| `PelotonToS3.CollectWorkoutIdsOnDay` | dags/peloton_to_s3.py:42-67 | collects exactly the ids dated on the filter day, in page order, and requests exactly the pages `Pagination.Requests` lists: 0, 1, …, k |
| `Calendar.DayOf` | dags/peloton_to_s3.py:58 | the UTC day of an epoch timestamp; specified by `Calendar.DayOfIff` |
| `Calendar.DayNumber` | dags/peloton_to_s3.py:59 | the day count of the filter date from 1970-01-01; specified by `Calendar.EpochIsDayZero`, `Calendar.NextDayNumber` and `Calendar.DayNumberInjective` |
| `Calendar.DayOfIff` | dags/peloton_to_s3.py:58 | a timestamp is on day d iff it lies in [d·86400, (d+1)·86400) |
| `Calendar.NextDayNumber` | dags/peloton_to_s3.py:59 | consecutive calendar dates get consecutive day numbers |
| `Calendar.DayNumberInjective` | dags/peloton_to_s3.py:59 | distinct valid dates get distinct day numbers, so comparing day numbers is comparing dates |
| `Calendar.OffsetDetermines` | dags/peloton_to_s3.py:58 | inside one March-based year, the day offset fixes the month and the day of the month |
| `Calendar.OffsetBounds` | dags/peloton_to_s3.py:58 | a date's offset in its March-based year lies below that year's length of 365 or 366 days |
| `Calendar.MarchDaysStep` | dags/peloton_to_s3.py:58 | a March-based year has 366 days exactly when the following February has 29 |
| `Calendar.EpochIsDayZero` | dags/peloton_to_s3.py:58 | 1970-01-01 is day 0 of the epoch |
| `Instructors.RosterMap` | dags/peloton_to_s3.py:80 | the dict comprehension over the roster; specified by `Instructors.RosterMapSpec` |
| `Instructors.Resolve` | historical_workouts.py:124-130 | `.map` through the directory, then `fillna('no instructor')`; specified by `Instructors.DirectoryFromRoster` and `Normalize.StandardRow` |
| `Instructors.Directory` | dags/peloton_to_s3.py:80-85 | the finished map sends 'no instructor' to itself and the patched id to 'Christine Dercole' |
| `Instructors.RosterMapSpec` | dags/peloton_to_s3.py:80 | the roster map holds exactly the roster's ids, each with the name of its last roster entry |
| `Instructors.DirectoryFromRoster` | historical_workouts.py:73-78 | every other entry comes from the roster (last entry wins); ids outside the roster resolve to 'no instructor' |
| `Instructors.DirectoryKeys` | historical_workouts.py:73-78 | the keys are the roster's ids plus the two fixed ones, and nothing else |
| `Instructors.OverridesWin` | dags/peloton_to_s3.py:83-85 | a roster entry for one of the two fixed ids, wherever it stands in the roster, does not change the directory |
| `Instructors.RosterMapEntry` | dags/peloton_to_s3.py:80 | a roster entry, wherever it stands, changes the roster map at its own id only |
| `Instructors.BuildDirectory` | historical_workouts.py:73-78 | the loop-built map is the directory, with both fixed entries |
| `Normalize.Extract` | historical_workouts.py:90-110 | the lanebreak and the standard branch of the detail loop (also dags/peloton_to_s3.py:99-119); specified by `Normalize.NormalizeFailsIff`, `Normalize.ExtractKeepsId`, `Normalize.LanebreakRow` and `Normalize.StandardRow` |
| `Normalize.ToRow` | historical_workouts.py:116-132 | the column conversions of one record; specified by `Normalize.RowConversions`, `Normalize.WholeMinutes`, `Normalize.RoundTenths` and `Text.StripApostrophes` |
| `Normalize.NormalizeWorkout` | historical_workouts.py:90-132 | one detail record to one row, or a missing key; specified by `Normalize.NormalizeFailsIff`, `Normalize.LanebreakRow` and `Normalize.StandardRow` |
| `Normalize.LanebreakRow` | dags/peloton_to_s3.py:99-108 | a ride with an `instructor` key gives class 'lanebreak' and instructor 'no instructor', whatever instructor_id and fitness_discipline hold |
| `Normalize.StandardRow` | dags/peloton_to_s3.py:111-119 | otherwise class is fitness_discipline and instructor is the directory's name for instructor_id, or 'no instructor' |
| `Normalize.NormalizeFailsIff` | historical_workouts.py:90-110 | a record fails exactly when ride, start_time, total_work, title or duration is missing, or for a non-lanebreak ride instructor_id or fitness_discipline |
| `Normalize.RowConversions` | historical_workouts.py:116-132 | id, rider name and start time are carried over; the title loses its apostrophes; length is duration div 60; output is joules/1000 in tenths |
| `Normalize.WholeMinutes` | dags/peloton_to_s3.py:129-135 | seconds / 60 truncated toward zero |
| `Normalize.RoundTenths` | dags/peloton_to_s3.py:130-141 | the nearest tenth of a kJ, ties to even |
| `Normalize.RoundExamples` | historical_workouts.py:121-132 | 12345 J is 12.3 kJ, and the ties 12350 J and 12250 J go to 12.4 and 12.2 |
| `Normalize.ExtractAll` | historical_workouts.py:80-113 | a raw record per id, or the KeyError of the first id whose record lacks a key |
| `Normalize.ExtractAllErrPersists` | dags/peloton_to_s3.py:89-122 | once a KeyError is raised, later ids cannot change the outcome |
| `Normalize.ExtractBatch` | dags/peloton_to_s3.py:89-122 | the loop computes ExtractAll, with one raw record per id carrying that id |
| `Normalize.ExtractKeepsId` | historical_workouts.py:92 | a raw record carries the id it was fetched for |
| `Normalize.Batch` | dags/peloton_to_s3.py:87-141 | the detail loop followed by the column step; specified by `Normalize.BatchRows` and `Normalize.EmptyBatchFails` |
| `Normalize.BatchRows` | dags/peloton_to_s3.py:87-141 | all-or-nothing: rows exactly when there is an id and every record normalises; then one row per id, in order, same rider name; the column step `Normalize.Tabulate` converts each raw record in order |
| `Normalize.EmptyBatchFails` | dags/peloton_to_s3.py:128 | an empty id list raises the missing-'date'-column KeyError, the error `Normalize.Tabulate` gives for an empty frame |
| `Text.StripApostrophes` | dags/peloton_to_s3.py:137 | the result holds no apostrophe and is no longer than the title |
| `Text.StripKeepsOthers` | historical_workouts.py:128 | every character other than an apostrophe occurs as often as before |
| `Text.StripConcat` | dags/peloton_to_s3.py:137 | stripping distributes over concatenation |
| `Text.StripSingle` | dags/peloton_to_s3.py:137 | one character is dropped iff it is an apostrophe |
| `Text.StripNoApostrophe` | historical_workouts.py:128 | a title with no apostrophe is unchanged |
| `Text.StripIdempotent` | historical_workouts.py:128 | stripping twice equals stripping once |
| `Text.StripExample` | dags/peloton_to_s3.py:137 | "Today's Ride" becomes "Todays Ride" |
| `Text.Decimal` | dags/peloton_to_s3.py:157 | `str(n)`: at least one digit, only digits, no leading zero; a single digit exactly when n < 10 |
| `Text.DecimalRoundTrip` | dags/peloton_to_s3.py:145 | reading the digits back gives the number |
| `Text.DecimalInjective` | dags/peloton_to_s3.py:145 | different numbers render differently |
| `Text.Pad2` | dags/peloton_to_s3.py:145 | `:02d` gives exactly two digits |
| `Text.Pad2RoundTrip` | dags/peloton_to_s3.py:145 | the two digits read back as the number |
| `CsvSink.WriteFile` | dags/peloton_to_s3.py:149-152 | the directory after one write; specified by `CsvSink.WriteFileSpec` and `CsvSink.WritesAccumulate` |
| `CsvSink.WriteFileSpec` | dags/peloton_to_s3.py:149-152 | after a write the file has one header line, then the earlier rows, then the new rows (one `CsvSink.Records` line per row, in order); existing content is a prefix; other files are untouched |
| `CsvSink.DataRowsAppend` | dags/peloton_to_s3.py:152 | appending records adds exactly those rows after the existing data rows |
| `CsvSink.WritesAccumulate` | dags/peloton_to_s3.py:147-152 | two runs on one date leave the same file as one run with both runs' rows |
| `CsvSink.WriteTwiceDuplicates` | dags/peloton_to_s3.py:149-152 | writing the same rows twice leaves the earlier data rows, then the rows, then the rows again |
| `CsvSink.DataDir.WriteCsv` | dags/peloton_to_s3.py:149-152 | header only when the file is absent, otherwise append |
| `PelotonToS3.PelotonToLocal` | dags/peloton_to_s3.py:13-157 | returns the path and writes the rows, or returns the sentinel and writes nothing, as `Run` decides |
| `PelotonToS3.Run` | dags/peloton_to_s3.py:42-157 | the task's result from the provider's answers and the filter date; specified by `PelotonToS3.RunOutcome` and `PelotonToS3.NoWorkoutsIsNoData`, and carried out by `PelotonToS3.PelotonToLocal` |
| `PelotonToS3.RunOutcome` | dags/peloton_to_s3.py:87-157 | writes iff some workout is on the date and all normalise; then one row per kept id in order, lanebreak rows with 'no instructor'; otherwise the sentinel |
| `PelotonToS3.NoWorkoutsIsNoData` | dags/peloton_to_s3.py:128-157 | no workout on the date gives the sentinel, not an empty file |
| `PelotonToS3.NoDataMessage` | dags/peloton_to_s3.py:157 | the no-data sentinel; specified by `PelotonToS3.SentinelIsNotAPath`, `PelotonToS3.SentinelUnpadded` and `PelotonToS3.DateFormats` |
| `PelotonToS3.PaddingDiffers` | dags/peloton_to_s3.py:145-157 | below 10, `str(n)` is one digit and `:02d` is that digit after a '0' |
| `PelotonToS3.SentinelUnpadded` | dags/peloton_to_s3.py:157 | for every valid date, the sentinel's month and day have one digit exactly when they are below 10, where the file name pads them with a '0' |
| `PelotonToS3.SentinelIsNotAPath` | dags/peloton_to_s3.py:154-157 | the sentinel never equals an output path |
| `PelotonToS3.FileName` | dags/peloton_to_s3.py:145 | the dated file name; specified by `PelotonToS3.OutputPathInjective` and `PelotonToS3.DateFormats` |
| `PelotonToS3.OutputPathInjective` | dags/peloton_to_s3.py:145 | different dates get different files |
| `PelotonToS3.DateFormats` | dags/peloton_to_s3.py:145-157 | 2023-05-29 gives `2023_05_29.csv` (zero padded) and `No data for 2023-5-29` (unpadded) |
| `HistoricalWorkouts.Details` | historical_workouts.py:64-137 | what `get_user_workout_details` returns or raises; specified by `HistoricalWorkouts.DetailsRows` |
| `HistoricalWorkouts.GetUserWorkoutDetails` | historical_workouts.py:64-137 | computes `Details`: an error or one row per id |
| `HistoricalWorkouts.DetailsRows` | historical_workouts.py:80-135 | all-or-nothing; one row per id in order with the same rider name; workout_id present iff requested, since `HistoricalWorkouts.DropWorkoutId` clears exactly that column |
| `HistoricalWorkouts.DroppedColumnWritesNothing` | historical_workouts.py:134-173 | details without workout_id commit nothing to the table |
| `HistoricalWorkouts.ReloadIsNoOp` | historical_workouts.py:166-170 | loading the same history twice leaves the table the first load left, also when the first load raised |
| `Relational.InsertRow` | historical_workouts.py:169 | one `INSERT ... ON CONFLICT DO NOTHING`; specified by `Relational.DuplicateKeepsFirst`, `Relational.InsertAllPresent` and `Relational.InsertAllSucceedsIff` |
| `Relational.InsertAll` | historical_workouts.py:166-170 | the insert loop up to the commit; specified by `Relational.InsertAllSucceedsIff`, `Relational.InsertAllSpec` and `Relational.InsertAllIdempotent` |
| `Relational.Upsert` | historical_workouts.py:163-173 | the whole insert step, with or without a table; specified by `Relational.DroppedIdsCommitNothing` and `Relational.Database.WriteToRds` |
| `Relational.InsertAllSucceedsIff` | historical_workouts.py:163-173 | the batch commits iff every row has a workout_id and is accepted |
| `Relational.InsertAllSpec` | historical_workouts.py:166-169 | existing rows are never changed; new keys are the batch's missing keys; the first row with a key wins |
| `Relational.InsertAllPresent` | historical_workouts.py:169 | rows whose keys are all present change nothing |
| `Relational.InsertAllIdempotent` | historical_workouts.py:166-170 | applying a batch twice equals applying it once |
| `Relational.DuplicateKeepsFirst` | historical_workouts.py:169 | the same workout_id inserted twice gives one row, the first |
| `Relational.DroppedIdsCommitNothing` | historical_workouts.py:169-173 | rows without workout_id raise, and the table stays as it was |
| `Relational.Database.WriteToRds` | historical_workouts.py:139-173 | optional create, then the new table if every insert succeeds, else the old one; one commit at the end |

## Left out

- Login and HTTP: `create_sesh`, the `/auth/login` POST and every `sesh.get(...).json()` call (historical_workouts.py:10-26, dags/peloton_to_s3.py:19-35). Their answers are inputs.
- Missing keys outside the `try` of the DAG task: in `/api/me`, in list items and in roster entries. Those `KeyError`s are not caught in the source either, so input records always have those fields.
- A response without a `data` key: a workout-list page (dags/peloton_to_s3.py:52, historical_workouts.py:52) or the roster response (dags/peloton_to_s3.py:80, historical_workouts.py:73). In the source that `KeyError` is not caught. In the model every page and the roster are always present.
- A provider that never returns an empty page: the `while True` loops (dags/peloton_to_s3.py:46, historical_workouts.py:47) would then never end. `Pagination.Pages` is finite and every page past its end counts as empty, so the model cannot represent that input, and both enumerators always terminate.
- JSON `null` values: a present key always holds a value of the expected type. A `null` instructor_id, which pandas would map to 'no instructor', is not modelled.
- Exceptions other than `KeyError`, as well as network and connection failures (`psycopg2.connect`, and a failing `CREATE TABLE`).
- `upload_to_s3`, the Airflow DAG, its retries and schedule, dotenv credentials and the module-level configuration (dags/peloton_to_s3.py:159-229, historical_workouts.py:176-214). This also covers the `__main__` loop over riders and the write to `all_rides.csv`.
- lambda.py is not part of this model. Its insert loop is the same as `write_to_rds`'s.
- SQL text, column widths and types: `Relational.InsertRow` takes the server's verdict on a row as the `accepts` input.
- The CSV text itself (quoting, column order): a file is a sequence of header and record lines.
- `Normalize.RoundTenths`: total work is taken as a whole number of joules and rounded exactly, half to even (numpy's `round`). The binary floating-point error of `total_work/1000`, which can decide a tie, is not modelled.
- `Normalize.RowConversions`: `date` stays the epoch-seconds value. The full `pd.to_datetime` conversion is not modelled; only the UTC day number used by the date filter is.
- Calendar: the filter compares the day number of the filter date with `start_time div 86400` (`Calendar.DayOfIff`), while the source compares calendar dates. Three lemmas back the replacement. `Calendar.EpochIsDayZero` puts 1970-01-01 at day 0, and `Calendar.NextDayNumber` adds one per calendar day, so `DayNumber` counts days from the epoch as pandas does. `Calendar.DayNumberInjective` makes the date with a given day number unique among dates in years 1 to 9999. The step through pandas's own timestamp-to-date conversion is not a lemma, because that conversion is not modelled.
- Timestamps outside pandas's nanosecond range: `pd.to_datetime(x, unit='s')` covers about 1677-09-21 to 2262-04-11 (about ±9223372036 seconds) and raises `OutOfBoundsDatetime` beyond that. In the DAG task the conversion at dags/peloton_to_s3.py:58 is outside the `try`, so the task fails; in the historical loader the conversion at historical_workouts.py:119 is not caught either. The model has no such failure. In the DAG task it compares such an item's day number like any other, so the item is dropped unless the filter date is its own date; in the historical loader the `date` column keeps the epoch seconds.
- Concurrent writers to one dated file or to the table.
