# packing-bags-forecast, modelled in Dafny

The system forecasts how many ordinary, cold and deep-frozen bags each grocery
order needs. Orders live in one wide table, `bags_forecast`: `order_id`, ten
product categories with six measurements each, four totals, the hub, the
delivery time, three actual bag counts and three forecasts (73 columns).

The model covers the core of the repository:

- **The table layout** (`ColumnGenerator`): the 73 column definitions, the
  bare column names and the training features a regressor reads.
- **The loaders**, which replay the order history into the warehouse one
  period at a time:
  - `NextDay`, `NextWeek` and `NextMonth` load PostgreSQL.
  - `NextDayToDynamo` loads DynamoDB.
- **How a loader works.** Each loader keeps a cursor (`Cursor.Config`).
  - On an empty table it bootstraps with all the history before the cursor.
  - Otherwise it loads the periods around the cursor. The next period goes in
    without its actual bag counts.
  - It then moves the cursor on.
  - A frame without `delivery_time`, or without `order_id` where the loader
    de-duplicates, makes pandas raise KeyError before any write. The table
    and the cursor then stay as they were.
- **The two writes to PostgreSQL** (`SqlStore`):
  - an `INSERT ... ON CONFLICT (order_id) DO UPDATE` of the actuals;
  - the `UPDATE` of the forecasts.
  - An INSERT also fails on a value that does not fit its column's declared
    type (INTEGER, FLOAT or TIMESTAMP).
- **The DynamoDB write** (`DynamoStore`): `put_item`, where the last write
  under a key wins.
- **The pipeline steps**, in two variants (`src/` and `steps/`):
  - ingest: parse `delivery_time` and add calendar features (`Ingest`);
  - transform: remove outliers (`SrcTransform`, `StepsTransform`);
  - predict: fill the missing forecasts hub by hub and write them back
    (`SrcPredict`, `StepsPredict`);
  - validate: split the data into the periods a drift report compares
    (`Validate`).
- **Two utility scripts:**
  - `PrepareCsv` renames a raw export, sorts it and numbers the orders;
  - `DynamoToCsv` puts the scanned items back into the table's column order.

Support modules:

- `Frames` is the slice of pandas the code uses. A frame is a header plus rows.
  Each row is a map from column name to cell. Missing values are NaN or None,
  and every comparison with them is false.
- `Calendar` is the proleptic Gregorian calendar over instants (seconds since
  1970-01-01 UTC). It covers weekday, ISO week, day of year and month
  arithmetic.
- `Windows` holds the time windows and the `_used`/`_forecast` column drops the
  loaders share.
- `Strings` holds the few string operations the code relies on.
- `Wrappers` defines `Option` and `Result`.

Where the source changes state in place, the model does too:
- the table objects are classes (`SqlStore.SqlTable`, `DynamoStore.DynamoTable`);
- so are the cursor and a frame handed to functions that modify it (`Frames.FrameRef`).

Each method is proved against a specification function:
- `UpsertAll` and `RunLoads` for the PostgreSQL loads;
- `UpdateAll` for the forecast updates;
- `PutAll` for DynamoDB;
- `PredictTargets` and `PredictHubs` for the prediction loops.

The properties the scripts are meant to have are lemmas over those functions.

## Model

| member | source | states |
|---|---|---|
| ColumnGenerator.CategoryList | src/column_generator.py:6-16 | kind k of category i sits at index 6(i-1)+k; there are 6n entries for n categories |
| ColumnGenerator.ExtendWithCategories | src/column_generator.py:6-16 | the loop leaves the start untouched and appends exactly the 60 category names, with the suffix, in category-then-kind order |
| ColumnGenerator.GenerateColumns | src/column_generator.py:3-32 | there are 73 definitions: `order_id INTEGER PRIMARY KEY` first, then the 60 `cat_ii_kind FLOAT` definitions in order, then the 12 additional ones, ending with `deep_frozen_bags_used_forecast FLOAT` |
| ColumnGenerator.GetColumnNames | src/column_generator.py:35-37 | one name per definition, each the first whitespace-separated token of its definition |
| ColumnGenerator.ColumnNamesLayout | src/column_generator.py:35-37 | the names are `order_id`, the 60 bare category names, then the 12 additional names (73 in all) |
| ColumnGenerator.ColumnNamesDistinct | src/column_generator.py:3-37 | the 73 column names are pairwise distinct |
| ColumnGenerator.CategoryNameInjective | src/column_generator.py:9-14 | two category names are equal only for the same category number and kind |
| ColumnGenerator.CategoryNamesDistinct | src/column_generator.py:9-14 | the 60 category names are distinct and all start with `cat_` |
| ColumnGenerator.AdditionalNamesDistinct | src/column_generator.py:17-30 | the 12 additional names are distinct, none starts with `cat_` and none is `order_id` |
| ColumnGenerator.BuildTrainingFeatures | src/column_generator.py:40-47 | the result is the `cat_` columns of the input in input order, then always the 4 totals and the 3 calendar features; a name is a feature iff it is an input `cat_` column or one of those seven |
| ColumnGenerator.TrainingFeaturesOfSchema | src/column_generator.py:40-47 | on the table's own columns the features are the 60 category names, the totals and the calendar features |
| ColumnGenerator.TrainingFeaturesExcludeTargets | src/column_generator.py:40-47 | on the table's own columns no feature is the key, the hub, the delivery time, an actual or a forecast |
| Strings.FirstTokenOfDefinition | src/column_generator.py:36 | the first token of `name + " " + type` is `name` when the name has no whitespace |
| Strings.TwoDigitsInjective | src/column_generator.py:9-14 | the two-digit rendering of numbers below 100 is injective |
| Strings.TwoDigits | src/column_generator.py:9-14 | `{i:02}` below 100 is exactly two decimal digits |
| Strings.DecimalStringInjective | src/predict.py:34 | distinct integers print as distinct decimal strings |
| Strings.NatString | src/predict.py:34 | `str` of a natural number is a non-empty string of decimal digits, at least two long from 10 on |
| Strings.PathJoinInjective | src/predict.py:33-35 | joining one directory to two different names gives two different paths |
| Strings.PathJoin | src/predict.py:33-35 | `os.path.join(dir, name)` ends with `name` |
| Calendar.FromInstant | scripts/next_month.py:42-46 | the civil date and time of an instant is a valid date that converts back to the same instant |
| Calendar.FromToInstant | scripts/next_month.py:42-46 | converting a valid date to an instant and back gives the same date |
| Calendar.ToInstantInjective | scripts/next_month.py:42-46 | two valid dates with the same instant are the same date |
| Calendar.Weekday | scripts/next_week.py:45 | the weekday is in 0..6, Monday being 0 |
| Calendar.WeekStart | scripts/next_week.py:45 | the Monday of the week, at the same time of day: at most a week before the instant, weekday 0 |
| Calendar.DayOfYear | src/ingest.py:17 | the day of year is in 1..366 |
| Calendar.DayOfYearOfDate | src/ingest.py:17 | the day of year of a date is the days of its year before its month plus its day |
| Calendar.IsoWeek | src/ingest.py:19 | the ISO week is in 1..53 |
| Calendar.IsoWeekOfJanuaryFourth | src/ingest.py:19 | January 4 is always in ISO week 1 |
| Calendar.IsoWeekConstantOnWeek | src/ingest.py:19 | all instants of one Monday-to-Sunday week have the same ISO week |
| Calendar.Hour | src/ingest.py:20 | the hour is in 0..23 |
| Calendar.DaysInMonth | scripts/next_month.py:45-46 | a month has 28 to 31 days |
| Calendar.AddMonths | scripts/next_month.py:45-46 | moving a valid date by k months gives a valid date |
| Calendar.AddOneMonth | scripts/next_month.py:45 | adding one month moves to the next month, with December rolling over to January of the next year |
| Calendar.SubtractOneMonth | scripts/next_month.py:46 | subtracting one month moves to the previous month, with January rolling back to December |
| Calendar.MonthLength | scripts/next_month.py:45 | the first of the next month lies exactly one month-length of days after the first of this month |
| Frames.FilterRows | scripts/next_day.py:50-51 | a boolean mask keeps a row iff it is in the input and satisfies the mask, and never yields more rows than the input |
| Frames.WhereColumn | src/transform.py:25-29 | `df[df.<c> <op> k]` fails with AttributeError iff the frame has no column `c`, naming it; otherwise it is the boolean mask |
| Frames.Where | src/transform.py:25-29 | a boolean mask keeps the header and keeps a well-formed frame well-formed |
| Frames.FilterIsSubsequence | scripts/next_day.py:50-51 | the kept rows keep their original order |
| Frames.FilterIdempotent | src/transform.py:25-29 | filtering twice with the same mask filters once |
| Frames.FilterTwice | src/transform.py:25-29 | filtering by p and then by q is filtering once by their conjunction |
| Frames.DedupDistinctKeys | scripts/next_day.py:66-68 | after `drop_duplicates(subset=['order_id'])` the `order_id`s are pairwise distinct |
| Frames.DedupIsSubsequence | scripts/next_day.py:66-68 | de-duplication keeps the surviving rows in input order |
| Frames.DedupMembers | scripts/next_day.py:66-68 | a row survives iff it is the first with its `order_id` |
| Frames.Dedup | scripts/next_day.py:66-68 | `drop_duplicates` adds no row: the result is no longer than the input and every row of it comes from the input (`DedupMembers`, `DedupDistinctKeys` and `DedupIsSubsequence` pin down which) |
| Frames.Deduplicated | scripts/next_day.py:66-68 | `drop_duplicates` on a frame with an `order_id` column keeps the header and the rows `Dedup` keeps |
| Frames.RemoveDuplicates | scripts/next_day.py:66-68 | `drop_duplicates(subset=['order_id'])` raises KeyError iff the frame has no `order_id` column, even with no rows; otherwise the header stays and the rows are the de-duplicated rows |
| Frames.ColumnsWithout | scripts/next_day.py:53 | a column survives a drop iff it is in the header and not selected for dropping; distinct names stay distinct |
| Frames.ColumnsWithoutIsSubsequence | scripts/next_day.py:53 | the surviving columns keep their order |
| Frames.DropColumnsIdempotent | scripts/next_day.py:53 | dropping by the same test twice drops once |
| Frames.DropColumns | scripts/next_day.py:53 | `df.drop(columns=…)` keeps every row and keeps a well-formed frame well-formed |
| Frames.FillNa | src/transform.py:30 | the header, the row count and each row's columns stay; every cell that was not missing keeps its value; no cell is missing afterwards |
| Frames.Project | scripts/dynamo_to_csv.py:37 | `df[cols]` fails iff a listed column is absent, with a KeyError naming an absent listed column; otherwise it gives the listed columns, in the listed order, for every row |
| Frames.WithColumn | src/predict.py:51 | after assigning a column the old header is a prefix of the new one, and the names are the old ones plus the assigned one |
| Windows.Window | scripts/next_week.py:49-51 | a window keeps the header; a row is in it iff it is in the data and its delivery time lies in [lo, hi); rows keep their order |
| Windows.Until | scripts/next_week.py:63 | a row is kept iff its delivery time is strictly before the bound |
| Windows.AdjacentWindows | scripts/next_week.py:49-51 | two windows that meet share no row, and together they are the window over their union |
| Windows.Redact | scripts/next_day.py:53 | every column whose name contains `_used` leaves the header and every row; the other cells are unchanged |
| Windows.RedactKeepsOrder | scripts/next_day.py:53 | the surviving columns keep their order |
| Windows.RedactIdempotent | scripts/next_day.py:53 | redacting twice is redacting once |
| Windows.OrderIdIsKept | scripts/next_day.py:53 | `order_id` survives redaction |
| Windows.ActualsAndForecastsAreRedacted | scripts/next_day.py:53 | all three actuals and all three forecasts contain `_used` |
| Windows.RedactedHasNoTargets | scripts/next_day.py:53 | a redacted frame has no actual and no forecast column left |
| Windows.SecondDropIsNoop | scripts/next_week.py:53-54 | the weekly loader's second drop of `_forecast` columns changes nothing on a frame whose forecast columns all contain `_used` |
| Windows.Epoch2000IsNewYear | scripts/next_day.py:46 | the default lower bound is 2000-01-01T00:00Z |
| Windows.DaySpans | scripts/next_day.py:50-51 | "today" is [lower, cursor) and "tomorrow" is the following 24 hours |
| Windows.WeekSpans | scripts/next_week.py:45-51 | there are three back-to-back one-week windows, each starting on a Monday; the middle one starts on the Monday of the cursor's week and contains the cursor |
| Windows.WeekShift | scripts/next_week.py:103 | moving by whole weeks keeps the weekday |
| Windows.MonthSpansByOffsets | scripts/next_month.py:44-46 | the month bounds equal the source's `replace(day=1)` and `DateOffset(months=±1)` formulas |
| Windows.MonthSpansAligned | scripts/next_month.py:44-50 | the bounds are day 1 of the previous, current and next month, at the cursor's time of day, and are strictly ordered around the cursor |
| Windows.MonthSpans | scripts/next_month.py:44-50 | each of the four bounds is day 1 of a month at the cursor's time of day |
| Windows.CurrentMonthStart | scripts/next_month.py:44 | day 1 of the cursor's month is at or before the cursor, and less than a month-length before it |
| Windows.NextMonthCursor | scripts/next_month.py:99 | the new cursor is the start of the next month window and lies after the old cursor |
| SqlStore.Bind | scripts/next_day.py:91 | a missing value is bound as NULL (never NaN); any other value is bound as itself |
| SqlStore.KeyOf | scripts/next_day.py:84-87 | an INSERT writes a key iff `order_id` is among its columns and holds an integer |
| SqlStore.ColumnTypesAsDeclared | src/column_generator.py:5-29 | `order_id` is INTEGER and each additional column has the type written beside its name |
| SqlStore.CategoryColumnsAreFloat | src/column_generator.py:7-15 | every category column is FLOAT |
| SqlStore.TypeInAt | src/column_generator.py:17-30 | among distinct names, a column's type is the one declared beside it |
| SqlStore.TypeInAbsent | src/column_generator.py:5-15 | a name not among the additional columns (a category column) is FLOAT |
| SqlStore.RoundHalfAway | scripts/next_day.py:90-94 | a float bound for an INTEGER column is stored as the nearest integer |
| SqlStore.FirstMisfit | scripts/next_day.py:90-94 | it finds a column whose bound value its type cannot hold, or there is none |
| SqlStore.RowError | scripts/next_day.py:84-93 | an INSERT fails iff a column is unknown, a column is repeated, the key is missing or not an integer, or a value does not fit its column's type (a timestamp in a numeric column, a number in the TIMESTAMP column, an integer outside 32 bits; text in a numeric column, see Left out) |
| SqlStore.Excluded | scripts/next_day.py:84-87 | `EXCLUDED` covers every column of the table; an omitted column is NULL and a given column holds its bound value |
| SqlStore.WithActuals | scripts/next_day.py:79-82 | `DO UPDATE SET` replaces the three actuals only |
| SqlStore.Upsert | scripts/next_day.py:84-91 | on success the key is added or kept and every other stored row is untouched; on failure the error is the row's error |
| SqlStore.UpsertAllSucceeds | scripts/next_day.py:90-94 | a load succeeds iff every row of it can be inserted, whatever the table holds |
| SqlStore.UpsertAll | scripts/next_day.py:89-94 | the statements of one load, in row order, stopping at the first error; a committed load deletes no stored key |
| SqlStore.UpsertAllPrefixError | scripts/next_day.py:90-94 | once a statement fails, the load fails with that error |
| SqlStore.UpsertAllResult | scripts/next_day.py:84-94 | the closed form of a successful load: the keys are the old keys plus the batch's keys. A new key holds its first row's `EXCLUDED` with the actuals of its last row. An old key keeps its record except for the actuals of its last row |
| SqlStore.UpsertAllValid | scripts/next_day.py:84-94 | a load keeps every stored row at exactly the table's columns, and keeps NaN out |
| SqlStore.UpsertAllKeepsNonActuals | scripts/next_day.py:79-87 | a row already stored keeps every column except the three actuals |
| SqlStore.UpsertAllLastActuals | scripts/next_day.py:79-91 | a key of the load ends with the actuals of its last occurrence, or NULL where the load omits them |
| SqlStore.UpsertAllIdempotent | scripts/next_day.py:84-94 | replaying a successful load changes nothing |
| SqlStore.UpsertAllUnique | scripts/next_day.py:84-94 | a row whose `order_id` is unique in the load is stored as its `EXCLUDED` (new key) or gets its actuals (old key) |
| SqlStore.FreshLoad | scripts/next_day.py:71-95 | a de-duplicated load into an empty table stores exactly the keys of the rows, each as its first row's `EXCLUDED` |
| SqlStore.OmittedActualsAreNull | scripts/next_day.py:79-87 | a load without actual columns leaves NULL actuals under each of its keys |
| SqlStore.MatchKey | src/predict.py:65-73 | `WHERE order_id = %s` matches an integer or an integral float; NULL matches nothing; a timestamp or text is an error |
| SqlStore.FloatValue | src/predict.py:62-72 | a FLOAT parameter keeps its number and its missingness; a timestamp or text is an error |
| SqlStore.ForecastValues | src/predict.py:70-72 | the UPDATE binds the three forecasts in table order |
| SqlStore.SetForecasts | src/predict.py:62-64 | the three forecasts are set and every other column is unchanged |
| SqlStore.UpdateTarget | src/predict.py:67-75 | an UPDATE fails iff a field it reads is absent, a forecast is not a number, or the key is not a number |
| SqlStore.UpdateOne | src/predict.py:60-75 | one UPDATE changes at most the matched row's forecasts and no key |
| SqlStore.UpdateAll | src/predict.py:59-77 | the updates change no key and no cell outside the forecasts |
| SqlStore.UpdateAllUnselected | src/predict.py:59-77 | a stored row no frame row selects stays as it was |
| SqlStore.UpdateAllLastWins | src/predict.py:59-77 | a selected row holds the forecasts of the last frame row that selects it |
| SqlStore.UpdateOneValid | src/predict.py:59-77 | one UPDATE keeps every stored row at exactly the table's columns and its own key, when the table has the forecast columns |
| SqlStore.UpdateAllValid | src/predict.py:59-77 | the whole run of UPDATEs keeps the table well-formed in the same sense |
| SqlStore.TableHasForecastColumns | src/column_generator.py:3-37 | the table `generate_columns` defines has the three forecast columns the UPDATE sets |
| SqlStore.UpdateAllSucceeds | src/predict.py:59-77 | the update fails iff one of its rows fails, whatever the table holds |
| SqlStore.RunLoadsSucceeds | scripts/next_day.py:128-137 | the loads of a run all commit iff each load is free of errors |
| SqlStore.RunLoads | scripts/next_day.py:128-137 | the loads of one run, each committed on its own, stopping at the first failing load; when all commit, no stored key is lost |
| SqlStore.RunLoadsFailure | scripts/next_day.py:128-137 | when a load fails, the table holds exactly what the earlier loads committed |
| SqlStore.RunLoadsValid | scripts/next_day.py:128-137 | a run keeps the table well-formed |
| SqlStore.RunLoadsKeys | scripts/next_day.py:128-137 | every key afterwards was stored before or is carried by a row of some load |
| SqlStore.LastLoadOmitsActuals | scripts/next_day.py:133-137 | after a successful run whose last load has no actual columns, each key of that load has NULL actuals |
| SqlStore.SqlTable.Load | scripts/next_day.py:90-94 | the statement loop commits exactly `UpsertAll` of the rows, or leaves the table unchanged and reports the first error |
| SqlStore.SqlTable.UpdateForecasts | src/predict.py:59-77 | the UPDATE loop commits exactly `UpdateAll` of the rows, or leaves the table unchanged and reports the first error; either way every row keeps exactly the table's columns and its own key |
| NextDay.DayWindows | scripts/next_day.py:46-55 | "today" is the rows in [lower, cursor) with every column; "tomorrow" has no `_used` column and therefore no actual |
| NextDay.FilterData | scripts/next_day.py:46-55 | KeyError iff there is no `delivery_time` column; otherwise the two windows of `DayWindows` |
| NextDay.LoadToPostgres | scripts/next_day.py:66-95 | without an `order_id` column the load raises KeyError before any statement and the table is unchanged; otherwise the de-duplicated frame is upserted: the table is `UpsertAll` of the first rows per key, or unchanged with the database error |
| NextDay.UpdateConfigDate | scripts/next_day.py:98-101 | the cursor moves exactly one day on, keeping its time of day |
| NextDay.LoadDays | scripts/next_day.py:128-137 | without `delivery_time`, or else without `order_id`, it fails with that KeyError and the table is unchanged; otherwise the empty branch loads the bootstrap window, else today's and then tomorrow's, stopping at the first failure |
| NextDay.PlannedLoads | scripts/next_day.py:128-137 | one load (the bootstrap window) on an empty table, else two; the first keeps every column and holds only data rows delivered in its window; the second has no actual column |
| NextDay.LoadTwo | scripts/next_day.py:136-137 | two de-duplicated loads in order, the second only after the first committed; a first frame without `order_id` fails before any statement |
| NextDay.Run | scripts/next_day.py:104-144 | a frame without `delivery_time` or `order_id` fails with that KeyError, leaving table and cursor as they were; otherwise the table ends as `RunLoads` of the planned loads; the cursor moves one day only if every load succeeded |
| NextDay.BootstrapContents | scripts/next_day.py:128-131 | after bootstrapping an empty table, the keys are exactly those delivered between 2000-01-01 and the cursor, each stored from its first row |
| NextDay.TomorrowHasNoActuals | scripts/next_day.py:132-137 | after an incremental run, every order of tomorrow has NULL actuals |
| NextWeek.WeekWindows | scripts/next_week.py:42-56 | there are three week windows; the next week loses its `_used` and `_forecast` columns, so it has no actual |
| NextWeek.FilterData | scripts/next_week.py:42-56 | KeyError iff there is no `delivery_time` column; otherwise the three windows of `WeekWindows` |
| NextWeek.PreviousWeeks | scripts/next_week.py:59-65 | every row delivered before the Monday of the cursor's week, and so before the cursor |
| NextWeek.FilterAllPreviousWeeks | scripts/next_week.py:59-65 | KeyError iff there is no `delivery_time` column; otherwise the rows of `PreviousWeeks` |
| NextWeek.UpdateConfigDate | scripts/next_week.py:101-104 | the cursor moves one week on and keeps its weekday |
| NextWeek.LoadWeeks | scripts/next_week.py:131-140 | without `delivery_time` it fails with that KeyError and the table is unchanged; otherwise the empty branch loads all earlier weeks, else the previous, current and next week, stopping at the first failure |
| NextWeek.PlannedLoads | scripts/next_week.py:131-140 | one load on an empty table, exactly the data rows delivered before the Monday of the cursor's week; else three loads whose first keeps every column and whose last has no actual column |
| NextWeek.LoadThreeWeeks | scripts/next_week.py:137-140 | three loads in order, each only after the previous one committed |
| NextWeek.Run | scripts/next_week.py:107-147 | a frame without `delivery_time` fails with that KeyError, leaving table and cursor as they were; otherwise the table ends as `RunLoads` of the planned loads; the cursor moves one week only if every load succeeded |
| NextWeek.BootstrapKeys | scripts/next_week.py:131-134 | after bootstrapping, the stored keys are exactly those delivered before the Monday of the cursor's week |
| NextWeek.NextWeekHasNoActuals | scripts/next_week.py:135-140 | after an incremental run, every order of the next week has NULL actuals |
| NextWeek.WeeksPartition | scripts/next_week.py:49-51 | the three windows are pairwise disjoint and together cover the three weeks |
| NextWeek.WindowsAdvance | scripts/next_week.py:101-104 | after the cursor moves, the previous window is the old current one and the current window is the old next one |
| NextMonth.MonthWindows | scripts/next_month.py:40-54 | there are three month windows; the next month loses its `_used` columns and therefore its actuals |
| NextMonth.FilterData | scripts/next_month.py:40-54 | KeyError iff there is no `delivery_time` column; otherwise the three windows of `MonthWindows` |
| NextMonth.LoadToPostgres | scripts/next_month.py:65-94 | without an `order_id` column the load raises KeyError before any statement and the table is unchanged; otherwise the de-duplicated frame is upserted: the table is `UpsertAll` of the first rows per key, or unchanged with the database error |
| NextMonth.UpdateConfigDate | scripts/next_month.py:97-100 | the cursor moves to day 1 of the next month, strictly later |
| NextMonth.LoadMonths | scripts/next_month.py:126-136 | without `delivery_time`, or else without `order_id`, it fails with that KeyError and the table is unchanged; otherwise the empty branch loads the previous and the current month, else all three months, stopping at the first failure |
| NextMonth.MonthLoads | scripts/next_month.py:126-136 | two loads on an empty table, else three; the first two keep every column and hold only data rows of the previous and the current month; the third has no actual column |
| NextMonth.LoadTwo | scripts/next_month.py:129-130 | two de-duplicated loads in order, the second only after the first committed; a first frame without `order_id` fails before any statement |
| NextMonth.Run | scripts/next_month.py:103-143 | a frame without `delivery_time` or `order_id` fails with that KeyError, leaving table and cursor as they were; otherwise the table ends as `RunLoads` of the month loads; the cursor moves to the next month only if every load succeeded |
| NextMonth.BootstrapSpansTwoMonths | scripts/next_month.py:126-130 | the bootstrap stores only orders delivered in the previous or the current month |
| NextMonth.BootstrapRow | scripts/next_month.py:128-130 | every bootstrap row is a data row of the previous or the current month, with the data's header |
| NextMonth.NextMonthHasNoActuals | scripts/next_month.py:131-136 | after an incremental run, every order of the next month has NULL actuals |
| NextMonth.MonthsPartition | scripts/next_month.py:48-50 | the three month windows are pairwise disjoint and together cover the three months |
| NextMonth.WindowsAdvance | scripts/next_month.py:97-100 | after the cursor moves, the windows move by exactly one month |
| DynamoStore.PutAll | scripts/next_day_to_dynamodb.py:94-98 | the keys afterwards are the old keys plus the keys of the rows put |
| DynamoStore.PutAllUntouched | scripts/next_day_to_dynamodb.py:94-98 | an item that is not put keeps its contents |
| DynamoStore.PutAllLastWins | scripts/next_day_to_dynamodb.py:94-98 | the item under a key is the last row put with that key |
| DynamoStore.PutAllAppend | scripts/next_day_to_dynamodb.py:136-138 | putting two batches in turn is putting their concatenation |
| DynamoStore.DistinctKeysAllStored | scripts/next_day_to_dynamodb.py:90-98 | with distinct keys, every row is stored as put |
| DynamoStore.PutAllIdempotent | scripts/next_day_to_dynamodb.py:94-98 | putting the same batch again changes nothing |
| DynamoStore.DynamoTable.PutItems | scripts/next_day_to_dynamodb.py:94-98 | the `put_item` loop leaves exactly `PutAll` of the rows |
| NextDayToDynamo.Filled | scripts/next_day_to_dynamodb.py:121 | after `fillna(0.0)` no cell is missing and the header is unchanged |
| NextDayToDynamo.LoadToDynamo | scripts/next_day_to_dynamodb.py:82-98 | the load fails iff there is no `order_id` column, and then nothing is written; otherwise the first row per key is put |
| NextDayToDynamo.LoadPair | scripts/next_day_to_dynamodb.py:136-138 | today's rows, then tomorrow's; a missing key column stops the run after what was already written |
| NextDayToDynamo.LoadDay | scripts/next_day_to_dynamodb.py:126-138 | it succeeds iff the frame has `delivery_time` and `order_id`; a missing one is reported (`delivery_time` first) and nothing is written; otherwise the empty branch puts the bootstrap window, else today's and tomorrow's windows |
| NextDayToDynamo.DayPuts | scripts/next_day_to_dynamodb.py:126-138 | on an empty table the puts are data rows delivered in [2000-01-01, cursor) with pairwise distinct `order_id`s |
| NextDayToDynamo.Run | scripts/next_day_to_dynamodb.py:111-142 | it succeeds iff the frame has `delivery_time` and `order_id`, and a failure writes nothing; the items are `PutAll` of the planned puts of the filled frame; the cursor moves one day only on success |
| NextDayToDynamo.PutsComplete | scripts/next_day_to_dynamodb.py:121 | every row put has no missing cell |
| NextDayToDynamo.StoredItemsComplete | scripts/next_day_to_dynamodb.py:121-138 | no item a run writes holds a missing value |
| NextDayToDynamo.TomorrowItemsLackUsedColumns | scripts/next_day_to_dynamodb.py:61-63 | after an incremental run, the item of each order delivered tomorrow has no `_used` attribute |
| NextDayToDynamo.BootstrapItems | scripts/next_day_to_dynamodb.py:126-130 | the bootstrap run stores the keys delivered between 2000-01-01 and the cursor, each from its first row |
| Ingest.ParseDeliveryTimes | src/ingest.py:10-12 | KeyError without `delivery_time`; parsing fails iff some cell does not parse; on success only `delivery_time` changes, to an instant or NaT |
| Ingest.Transform | src/ingest.py:10-12 | the caller's frame is rewritten in place and returned; on failure it is unchanged |
| Ingest.Features | src/ingest.py:17-20 | the four feature columns, each present |
| Ingest.EnrichRowFeatures | src/ingest.py:17-20 | day of year, weekday (Monday 0), ISO week and hour of the delivery time; all four missing when the time is NaT |
| Ingest.EnrichRowKeeps | src/ingest.py:16 | enriching leaves every other cell unchanged |
| Ingest.ExtraFeatures | src/ingest.py:15-21 | fails iff `delivery_time` is absent or not a datetime column; on success the old header is a prefix, the four features are added, and each row is enriched |
| Ingest.ExtraFeaturesIdempotent | src/ingest.py:15-21 | enriching an enriched frame changes nothing |
| Ingest.DayOfYearFeature | src/ingest.py:17 | the day-of-year feature counts from January 1 of the delivery's year |
| Ingest.Run | src/ingest.py:24-50 | do_ingest transforms, then enriches; it fails exactly when parsing fails, and on success the four features are columns |
| SrcTransform.RemoveOutliers | src/transform.py:24-31 | fails iff a bounded column is absent; on success the header is kept, nothing is missing and no row is added |
| SrcTransform.RemoveOutliersInOnePass | src/transform.py:24-31 | the five filters in a row are one filter by all five bounds, followed by `fillna(0.0)` |
| SrcTransform.SurvivorsInRange | src/transform.py:25-29 | every surviving row has 0 <= bags < 10, non-negative cold and deep-frozen bags, and weight < 50000 |
| SrcTransform.RemoveOutliersIdempotent | src/transform.py:24-31 | removing outliers twice removes them once |
| SrcTransform.TestScenario | src/transform.py:24-31 | on the unit test's frame the order with 5 bags stays and the one with 12 bags goes |
| SrcTransform.Run | src/transform.py:34-45 | do_transform parses and then filters; on success nothing is missing and every row is plausible |
| StepsTransform.RemoveOutliers | steps/transform.py:33-40 | fails iff a bounded column is absent; on success the header is kept, nothing is missing and no row is added |
| StepsTransform.RemoveOutliersInOnePass | steps/transform.py:33-40 | the five strict filters are one filter followed by `fillna(0.0)` |
| StepsTransform.SurvivorsInRange | steps/transform.py:34-38 | every surviving row has 0 < bags < 10, positive cold and deep-frozen bags, and weight < 50000 |
| StepsTransform.RemoveOutliersIdempotent | steps/transform.py:33-40 | removing outliers twice removes them once |
| StepsTransform.StricterThanSrc | steps/transform.py:35-37 | the `steps` filter keeps a subsequence of what the `src` filter keeps |
| StepsTransform.TestScenario | steps/transform.py:33-40 | on the unit test's frame the `steps` filter keeps no row, since each order has zero bags of some kind |
| StepsTransform.Run | steps/transform.py:43-50 | main parses, enriches, then filters; on success nothing is missing, every row is plausible and the features are columns |
| SrcPredict.FilterRowsWithNullForecasts | src/predict.py:23-29 | KeyError without a forecast column; otherwise exactly the rows with some forecast missing, in order |
| SrcPredict.FilterRowsWithNullForecastsIdempotent | src/predict.py:23-29 | selecting twice selects once |
| SrcPredict.ModelPath | src/predict.py:32-36 | the path ends with `<target>_<hub>.joblib` |
| SrcPredict.FeatureMatrix | src/predict.py:51 | `hub_data[features].values` has one row per selected row |
| SrcPredict.ModelPathInjective | src/predict.py:32-36 | under one mount point, different (target, hub) pairs have different model files |
| SrcPredict.LoadModel | src/predict.py:32-36 | loading fails iff the model file is absent, and the error names the path |
| SrcPredict.Assign | src/predict.py:51 | the `.loc` assignment keeps the number of rows and every `hub_id` |
| SrcPredict.AssignAt | src/predict.py:51 | a row changes only in the target column: a hub row gets a prediction, any other row keeps its cell |
| SrcPredict.AssignOrder | src/predict.py:51 | the hub's rows receive the predictions in order, one each |
| SrcPredict.PredictTarget | src/predict.py:43-51 | one pass keeps the number of rows and `hub_id`, and the forecast column is added to the header if new |
| SrcPredict.PredictTargetSucceeds | src/predict.py:43-51 | one pass fails iff the model is absent, `hub_id` or a feature column is missing, or the model returns the wrong number of predictions |
| SrcPredict.PredictTargetOrder | src/predict.py:46-51 | a successful pass writes the model's predictions to the hub's rows in order |
| SrcPredict.PredictTargetCells | src/predict.py:51 | a successful pass changes only the target's forecast cell, and only in rows of the hub |
| SrcPredict.PredictTargetsSucceed | src/predict.py:40-51 | with every model present and well-shaped, the three passes succeed |
| SrcPredict.PredictTargetsRow | src/predict.py:40-52 | after the three passes a row differs only in forecast cells; other hubs are untouched; a hub row gets all three forecasts when models never predict a missing value |
| SrcPredict.MakePredictions | src/predict.py:39-52 | the in-place loop leaves `data` as `PredictTargets` computes it and returns the same frame, or the first error |
| SrcPredict.PredictTargets | src/predict.py:39-52 | the three forecast passes for one hub keep the frame's row count; `PredictTargetsRow` and `PredictTargetsSucceed` state which cells change and when they succeed |
| SrcPredict.HubIds | src/predict.py:97 | `unique()` lists each hub of the rows exactly once and nothing else; a non-integer hub is an error |
| SrcPredict.PredictHubsRow | src/predict.py:97-99 | after the hub loop a row differs only in forecast cells and has all three forecasts |
| SrcPredict.PredictedOk | src/predict.py:82-99 | a successful run selects, lists the hubs and predicts each hub without error |
| SrcPredict.EverySelectedRowPredicted | src/predict.py:82-99 | every selected row ends with all three forecasts and no other change |
| SrcPredict.PredictEveryHub | src/predict.py:97-99 | the hub loop leaves the frame as `PredictHubs` computes it, or stops at the first error |
| SrcPredict.PredictHubs | src/predict.py:97-99 | the passes over every hub keep the frame's row count; `PredictHubsRow` states that each row gets its three forecasts and nothing else changes |
| SrcPredict.Run | src/predict.py:82-104 | do_predict, with the feature list built from the selected frame's columns as intended, updates the table with the predicted frame, or leaves it unchanged and reports the error |
| SrcPredict.StoredForecastsFilled | src/predict.py:82-104 | after the write-back, every stored order selected by the frame has all three forecasts, none missing |
| SrcPredict.FeaturesOfIndex | src/predict.py:94 | `build_training_features` given the column index always raises AttributeError on `.columns` |
| SrcPredict.RunAsWritten | src/predict.py:82-94 | do_predict as written fails on every input: with the selection's KeyError, or else with the AttributeError; it changes nothing |
| SrcPredict.AsWrittenNeverPredicts | src/predict.py:94 | whenever the corrected run predicts a frame, the code as written raises AttributeError instead |
| SrcPredict.EmptyFrameShowsAttributeError | src/predict.py:94 | a frame with the forecast and hub columns and no rows: the corrected run succeeds, the code as written raises |
| StepsPredict.AsWritten | steps/predict.py:32-40 | `make_predictions` as written returns the frame it was given, unchanged, whenever no pass raises |
| StepsPredict.MakePredictions | steps/predict.py:32-40 | the loop as written returns the input frame or the first error |
| StepsPredict.FailsLikeCorrected | steps/predict.py:35-39 | a pass as written fails exactly when the corrected pass fails |
| StepsPredict.AsWrittenHubs | steps/predict.py:87-89 | the hub loop as written returns its input frame |
| StepsPredict.WritesBackTheNulls | steps/predict.py:72-92 | main writes back exactly the selected rows, unchanged, all with a missing forecast |
| StepsPredict.PredictEveryHub | steps/predict.py:87-89 | the hub loop rebinds the frame to what each call returns |
| StepsPredict.Run | steps/predict.py:72-94 | main updates the table with the selected rows, or leaves it unchanged and reports the error |
| StepsPredict.AsWrittenLosesPredictions | steps/predict.py:38-40 | whenever every pass succeeds, the code as written returns the input while the corrected passes write all three forecasts to a hub row |
| StepsPredict.ExampleLosesPredictions | steps/predict.py:38-40 | one order of hub 1 with no forecast: the code as written returns it still without forecasts, while the corrected version fills them |
| Validate.RemoveForecastColumns | steps/validate.py:69-76 | exactly the columns ending in `_forecast` go, from the header and from every row; the rest stay in order |
| Validate.RemoveForecastColumnsIdempotent | steps/validate.py:69-76 | removing them twice removes them once |
| Validate.ActualsSurvive | steps/validate.py:69-76 | the three forecasts go and the three actuals stay |
| Validate.SplitDates | steps/validate.py:33-34 | the bounds are 2022-01-01 and 2022-02-20 at midnight |
| Validate.PeriodsDisjoint | steps/validate.py:38-42 | no order is both reference and current; the orders in neither are those delivered at or before 2022-01-01, or with no delivery time |
| Validate.SplitCounts | steps/validate.py:38-42 | every order is counted once: reference, current or neither |
| Validate.NumericColumns | steps/validate.py:51 | the numeric columns, in header order |
| Validate.DropNa | steps/validate.py:52-54 | exactly the rows with no missing cell, in order |
| Validate.NumericPartRows | steps/validate.py:51-54 | a period's numeric part is non-empty iff the period has a complete row; each of its rows projects a complete row |
| Validate.NumericPart | steps/validate.py:51-54 | `df[num_columns].dropna()` has exactly the numeric columns and no missing cell |
| Validate.Run | steps/validate.py:31-65 | `run` fails on a missing column, on no rows, on a first delivery time that is NaT, when a period is empty, when there is no numeric column (a zero-column part is empty), and when a period has no complete numeric row; otherwise it gives the two numeric parts |
| Validate.RunPeriods | steps/validate.py:38-60 | each compared reference (current) row projects an order strictly inside (after) the split; neither side has a missing value |
| Validate.ValidateData | steps/validate.py:79-82 | main drops the forecasts first, so no compared column is a forecast |
| PrepareCsv.CsvColumns | scripts/prepare_csv.py:11-37 | there are 72 new names |
| PrepareCsv.NewColumns | scripts/prepare_csv.py:11-37 | the loop builds the 72 names; they are distinct and, after `order_id`, are the table's columns |
| PrepareCsv.CsvDeliveryTime | scripts/prepare_csv.py:29 | the 66th new name is `delivery_time` |
| PrepareCsv.Rename | scripts/prepare_csv.py:40 | `df.columns = names` fails iff the lengths differ; otherwise each new name holds the cell of the old column at its position |
| PrepareCsv.SortByDeliveryTime | scripts/prepare_csv.py:43 | the rows are sorted ascending by `delivery_time` (numbers by value, texts code point by code point, timestamps by instant), missing last, and are a permutation of the input |
| PrepareCsv.AssignIds | scripts/prepare_csv.py:46 | row k gets `order_id` 100000001 + k and every other cell is unchanged |
| PrepareCsv.KeyFirst | scripts/prepare_csv.py:49-51 | `order_id` first, then the other columns in their order |
| PrepareCsv.Prepare | scripts/prepare_csv.py:6-51 | main computes `Prepared` of the export under the new header |
| PrepareCsv.Prepared | scripts/prepare_csv.py:6-51 | a header of the wrong length is the rename ValueError; a success has `order_id` first and one row per exported row |
| PrepareCsv.PreparedSucceeds | scripts/prepare_csv.py:40-43 | the script fails iff the export has the wrong number of columns (ValueError) or its delivery times mix kinds, text with numbers say (TypeError); an all-text or all-numeric column sorts |
| PrepareCsv.PreparedHeader | scripts/prepare_csv.py:49-51 | the header written is `order_id` and then the new names |
| PrepareCsv.PreparedRows | scripts/prepare_csv.py:43-51 | row k of the result is the k-th row in delivery-time order, with `order_id` 100000001 + k |
| PrepareCsv.PreparedSorted | scripts/prepare_csv.py:43 | the result is sorted by delivery time |
| PrepareCsv.PreparedPermutation | scripts/prepare_csv.py:43-51 | without their new ids, the rows written are a permutation of the renamed export |
| PrepareCsv.PreparedTable | scripts/prepare_csv.py:11-51 | with the script's header, the output columns are exactly the table's columns |
| PrepareCsv.PreparedTableSucceeds | scripts/prepare_csv.py:40-43 | with the script's header, the script fails iff the export does not have 72 columns, or its 66th column mixes kinds of values |
| DynamoToCsv.ReorderColumns | scripts/dynamo_to_csv.py:23-38 | KeyError iff a table column is absent; otherwise the table's columns in order and one row per item |
| DynamoToCsv.ReorderKeepsCells | scripts/dynamo_to_csv.py:37 | every listed cell keeps its value and unlisted attributes are gone |
| DynamoToCsv.ReorderIdempotent | scripts/dynamo_to_csv.py:23-38 | reordering reordered data changes nothing |

## Left out

- I/O is left out: CSV and pickle reading and writing, the JSON config files, the database connections, the environment variables and the `print` output.
  - The frames, the tables and the cursor are parameters and objects.
  - A run's statements are modelled up to the commit.
- Connection loss and concurrent writers are left out.
- Parsing and rendering are left out: `pd.to_datetime` on text, `isoformat` of the cursor, and the float-to-string conversion before DynamoDB writes (`convert_to_compatible_types`).
  - Parsing is a function parameter (`parse`) of the ingest and transform steps.
  - The cursor is held as an instant.
- The dtype inference behind `select_dtypes(include=[np.number])` is a parameter (`isNumeric`).
- The evidently drift report itself is left out. `Validate.Run` stops at the two frames the report compares.
- `joblib.load` and the regressors are left out. They are a parameter mapping a path to a function from feature rows to predictions.
- Floating point is left out: `Real` is an exact rational, so a comparison with `10.0` or `5e4` is exact.
- `Int` and `Real` cells compare by number, as pandas does. Comparisons of text with numbers, which raise in pandas, are not modelled. A non-numeric cell fails every comparison.
- Time zones are left out. Every instant is UTC.
  - `steps/validate.py:32` reads the first row's zone. The model takes it to be UTC and treats a first cell that is NaT as an error.
- The `_forecast$` column filter in `steps/validate.py:71` is modelled as "ends with `_forecast`". Python's `$` would also match before a trailing newline in a column name.
- `drop_duplicates` treats NaN keys as equal; the model compares keys by value. Both keep the first occurrence of a key, as `drop_duplicates` does by default.
- `sort_values` uses quicksort by default, which is not stable. `PrepareCsv.SortByDeliveryTime` fixes one stable order (insertion order among equal keys).
  - The sort fails only when the delivery times present mix kinds (numbers, texts, timestamps), where Python's `<` raises TypeError.
- A comment at `scripts/prepare_csv.py:45` says the ids start at 10000001. The code starts at 100000001, and the model follows the code.
- `SqlStore.KeyOf`: a float `order_id` such as `100000001.0` is an `InvalidKey` error. PostgreSQL would round it into the INTEGER key. The exported keys are integers, and rounding could merge two rows that `drop_duplicates` keeps apart.
- `SqlStore.RowError`: a text cell is taken to fit the TIMESTAMP column whatever it says, since parsing is left out. Stored values keep their kind and are not converted to the column's type (an integer in a FLOAT column stays an `Int`). Text in a FLOAT or INTEGER column is refused, although PostgreSQL accepts text that reads as a number (`'12.5'`), because parsing is left out.
- `SqlStore.Fits`: how the driver adapts numpy scalars is left out. Every cell is bound as the value it holds.
- `SrcPredict.HubIds`: a non-integer `hub_id` (a float or text) is an error in the model. pandas would build a model path from it.
- The steps variants of `filter_rows_with_null_forecasts`, `load_model` and `update_postgresql` (`steps/predict.py:24-30`, `42-70`) are the same as the `src` ones. `StepsPredict` reuses the `SrcPredict` and `SqlStore` members.
- `Ingest.ExtraFeatures`: whether `delivery_time` holds datetimes is judged cell by cell (a timestamp or a missing value), where pandas judges the column's dtype. A column that was never parsed and is all missing, or has no rows, gives `Ok` in the model, but `.dt` raises AttributeError in pandas. No call site reaches this case, because `transform` always runs first (`src/ingest.py:39-40`).
- `SrcTransform.RemoveOutliers`: the error ensures names some missing bounded column, not necessarily the first one pandas would report.
- `convert_to_compatible_types` in the PostgreSQL loaders is the identity and has no member of its own.
- `dynamodb_to_dataframe` (`scripts/dynamo_to_csv.py:4-21`) is left out. Paging through a DynamoDB scan is I/O; the scanned items arrive as a frame.

## Findings

| source | as written | input that shows it | evidently intended | confidence | as-written member | corrected member |
|---|---|---|---|---|---|---|
| src/predict.py:94 | `do_predict` passes `data_with_nulls.columns`, the column index, to `build_training_features`, which reads `.columns` of its argument (`src/column_generator.py:43`), so it raises AttributeError before any hub is predicted and before any UPDATE | any frame with the three forecast columns, such as one that also has `hub_id` and no rows (`SrcPredict.EmptyFrameShowsAttributeError`) | the features are built from the selected frame's columns | not executed | SrcPredict.AsWrittenNeverPredicts | SrcPredict.Run |
| steps/predict.py:38-40 | `make_predictions` assigns the predictions into `hub_data`, a filtered copy, and returns `data` unchanged, so `main` writes back frames whose forecasts are still missing | one order of hub 1 with no forecasts (`StepsPredict.ExampleFrame`) and models that always predict 1.0 (`StepsPredict.ExampleModels`) | the predictions are written into `data` at the hub's rows, as `src/predict.py:51` does with `.loc` | not executed | StepsPredict.AsWrittenLosesPredictions | SrcPredict.MakePredictions |
