# Taxi-trip pipeline core, modelled in Dafny

This project models the logic of a small NYC taxi-trip pipeline. The rest of the pipeline is
downloads, database plumbing and plotting. The model covers three pieces of logic:

- **Monthly raw load** (`dagster_university/assets/trips.py`). A monthly partition key
  `YYYY-MM-DD` becomes a month tag (the key without its last three characters). The tag names
  the parquet file to download. The load deletes every `trips` row tagged with that month and
  inserts the file's rows tagged with it.
- **Weekly rollup** (`trips_by_week` in `dagster_university/assets/metrics.py`). For a week
  key the model selects the trips picked up in `[key, key + 7 days)` and reduces them to one
  row: `period`, a trip count, and sums of amount, distance and passengers. That row is then
  merged into the persisted CSV. With no file, the dataset is just the new row. Otherwise
  every row of that period is removed, the new row is appended and the rows are sorted by
  `period` as text.
- **Manhattan zone statistics** (`manhattan_stats` in `metrics.py`). This is
  `trips left join zones` on the pickup zone. The rows are filtered to Manhattan zones with a
  geometry, grouped by zone, borough and geometry, and counted.

Modules:

| file | module | contents |
|---|---|---|
| `wrappers.dfy` | `Wrappers` | `Option` (SQL NULL, missing file) and `Result` |
| `seqs.dfy` | `Seqs` | order-preserving `Filter` (SQL `where` / `delete`), `Map`, permutation helpers |
| `lex_order.dfy` | `LexOrder` | string order by character code, as Python compares `str` |
| `calendar.dfy` | `Calendar` | Gregorian dates, day numbers, ISO `YYYY-MM-DD` parse/format |
| `trips.dfy` | `Trips` | trip rows, month tag, download URL, partition replacement |
| `weekly_rollup.dfy` | `WeeklyRollup` | week window, trip selection, aggregation into a `WeekRow` |
| `rolling_store.dfy` | `RollingStore` | sort by period, upsert, histories of upserts |
| `trips_by_week.dfy` | `TripsByWeek` | one run of the weekly asset: compute, then upsert |
| `manhattan_stats.dfy` | `ManhattanStats` | left join, filter, group and count |

Representation choices:

- Every nullable column is an `Option`.
- Money and distance are integers in hundredths.
- Timestamps are integer microseconds since 1970-01-01, with no time zone, like a database `TIMESTAMP`.
- The persisted CSV is `Option<seq<WeekRow>>`; `None` is the `FileNotFoundError` case.
- The `trips` table is `Option<seq<TripRow>>`; `None` means the table does not exist yet,
  and `create table if not exists` turns that into an empty table.
- The zone geometry is opaque polygon text, compared only for equality and NULL.

Behaviour of the code worth knowing when reading the model:

- `num_trips` is pandas `count` of `vendor_id`, which counts only non-NULL vendor ids. It is
  not a count of all rows. `WeeklyRollup.CountIsWeekRows` shows the two agree when every
  selected trip has a vendor id.
- The weekly CSV is rewritten in place with no lock and no temporary file. A run computes the
  new dataset from the file it read and then overwrites that file.
- The monthly partition key is used only through its month tag.
- The monthly load sends its create, delete and insert as one batch with no transaction. The
  delete therefore takes effect even when the file then cannot be read.
- pandas `sort_values` uses an unstable sort. The model sorts stably. Every ordering property
  below is stated so that it does not depend on how ties between equal periods are ordered.
  Ties are possible only when the persisted file already held duplicate periods.

## Model

| member | source | states |
|---|---|---|
| `Calendar.UnixEpochIsDayZero` | dagster_university/assets/metrics.py:132-133 | 1970-01-01 is day 0, so a key's day number times a day's microseconds is the database `TIMESTAMP` of its midnight |
| `Calendar.DayNumberOrder` | dagster_university/assets/metrics.py:132-133 | turning a key's date into a day (the `::date` cast) preserves calendar order and sends distinct dates to distinct days |
| `Calendar.ParseFormat` | dagster_university/assets/metrics.py:132-133 | reading back the `YYYY-MM-DD` text of any valid date gives that date |
| `Calendar.FormatParse` | dagster_university/assets/metrics.py:132-133 | a key that reads as a date is exactly that date's canonical text, so each day has one key |
| `Calendar.FormatOrder` | dagster_university/assets/metrics.py:158 | ISO date texts sort as strings exactly as the dates sort in time |
| `Calendar.PadOrder` | dagster_university/assets/metrics.py:158 | zero-padded numerals of one width sort as text exactly as the numbers sort |
| `Trips.MonthTag` | dagster_university/assets/trips.py:20 | the tag is a prefix of the key, three characters shorter (empty for keys shorter than three), as `key[:-3]` |
| `Trips.MonthTagOfIsoDate` | dagster_university/assets/trips.py:46-47 | for a `YYYY-MM-DD` key the tag is the `YYYY-MM` of its date |
| `Trips.MonthTagSameMonth` | dagster_university/assets/trips.py:19-20 | two date keys get the same tag exactly when they fall in the same calendar month |
| `Trips.UrlMonthRoundTrip` | dagster_university/assets/trips.py:21-23 | the URL is the fixed prefix, `yellow_tripdata_`, the month and `.parquet`, and the month can be read back from it, so distinct months never share a file |
| `Trips.Tagged` | dagster_university/assets/trips.py:59-63 | every inserted row carries its file trip and `partition_date` equal to the month tag |
| `Trips.LoadPartition` | dagster_university/assets/trips.py:49-63 | the table after a successful load has as many rows as the other months' rows plus the file's rows |
| `Trips.LoadBatch` | dagster_university/assets/trips.py:49-69 | the batch fails exactly when the file cannot be read; a readable file gives the successful load, and either way the month's old rows are gone |
| `Trips.FailedLoadEmptiesMonth` | dagster_university/assets/trips.py:57-63 | when the file cannot be read the delete has still happened: no row of the month is left |
| `Trips.FailedLoadKeepsOtherMonths` | dagster_university/assets/trips.py:57-63 | a failed load leaves every other month's rows as they were, in order |
| `Trips.RetryAfterFailedLoad` | dagster_university/assets/trips.py:57-63 | rerunning with a readable file after a failed load leaves exactly the table a first successful load leaves |
| `Trips.LoadReplacesMonth` | dagster_university/assets/trips.py:57-63 | after a load, the rows tagged with the month are exactly the file's rows in file order; no earlier row of that month survives |
| `Trips.LoadKeepsOtherMonths` | dagster_university/assets/trips.py:57 | a load leaves the rows of every other month unchanged and in order |
| `Trips.LoadIdempotent` | dagster_university/assets/trips.py:57-63 | loading the same month from the same file twice gives the table one load gives |
| `Trips.LoadsOfDistinctMonthsCommute` | dagster_university/assets/trips.py:57-63 | loads of two different months give the same rows in either order |
| `WeeklyRollup.WeekWindow` | dagster_university/assets/metrics.py:129-134 | a date key gives a window starting at midnight of the key's own date and lasting exactly seven days; a non-date key fails with `InvalidPartitionKey` |
| `Calendar.NextDateStep` | dagster_university/assets/metrics.py:133 | day numbers have no gaps: the next calendar day is numbered one more, so `date + interval '1 week'` is the seventh following midnight |
| `WeeklyRollup.PickupDayInWeek` | dagster_university/assets/metrics.py:132-133 | a pickup made on calendar day `e` is selected exactly when `e` is the key's date or one of the six days after it |
| `WeeklyRollup.SelectWeekContents` | dagster_university/assets/metrics.py:129-134 | a trip is selected exactly when its pickup time is non-NULL and `start <= pickup < end`, with its multiplicity kept |
| `WeeklyRollup.WeekWindowsDisjoint` | dagster_university/assets/metrics.py:132-133 | windows of two different keys on the same weekday share no instant, so no trip is counted in two weekly partitions |
| `WeeklyRollup.KeyOrderIsTimeOrder` | dagster_university/assets/metrics.py:158 | date keys sort as text exactly as their weeks sort in time |
| `WeeklyRollup.Aggregate` | dagster_university/assets/metrics.py:139-144 | the trip count lies between 0 and the number of rows reduced |
| `WeeklyRollup.AggregateConcat` | dagster_university/assets/metrics.py:139-144 | count and sums of two batches of rows add up to those of the batches together |
| `WeeklyRollup.AggregateCountsVendorRows` | dagster_university/assets/metrics.py:140 | the trip count is the number of rows with a non-NULL vendor id |
| `WeeklyRollup.AggregatePermutation` | dagster_university/assets/metrics.py:136-144 | the reduction does not depend on the order the query returns rows in |
| `WeeklyRollup.WeekSummary` | dagster_university/assets/metrics.py:126-152 | the row's period is the key, its count is the number of the week's rows with a vendor id, and a non-date key fails |
| `WeeklyRollup.QuietWeekIsZero` | dagster_university/assets/metrics.py:139-152 | a week with no pickups yields count and sums of 0, not an error or NULL |
| `WeeklyRollup.CountIsWeekRows` | dagster_university/assets/metrics.py:140 | when every row has a vendor id, the count is the number of trips picked up in the week |
| `WeeklyRollup.OutsideTripIgnored` | dagster_university/assets/metrics.py:129-134 | adding a trip picked up outside the week leaves the row unchanged |
| `WeeklyRollup.InsideTripAdded` | dagster_university/assets/metrics.py:139-144 | adding a trip picked up inside the week adds its vendor count and its non-NULL amount, distance and passengers |
| `WeeklyRollup.WeekSummaryPermutation` | dagster_university/assets/metrics.py:129-152 | the row depends only on which trips the table holds, not on their order |
| `RollingStore.Insert` | dagster_university/assets/metrics.py:158 | inserting into a sorted dataset keeps it sorted and adds exactly that row |
| `RollingStore.SortByPeriod` | dagster_university/assets/metrics.py:158 | the result is sorted ascending by period as text and is a permutation of the input |
| `RollingStore.SortUnique` | dagster_university/assets/metrics.py:158 | sorting keeps the periods distinct |
| `RollingStore.SortedUniqueDetermined` | dagster_university/assets/metrics.py:158 | a sorted dataset with distinct periods is the only sorted arrangement of its rows |
| `RollingStore.Upsert` | dagster_university/assets/metrics.py:154-161 | with no file, the result is exactly the new row. Otherwise it is sorted by period and holds the new row plus one row per old row of another period |
| `RollingStore.UpsertMembership` | dagster_university/assets/metrics.py:157-158 | a row is in the result exactly when it is the new row or an old row of another period |
| `RollingStore.UpsertReplacesPeriod` | dagster_university/assets/metrics.py:157-158 | selecting the new row's period from the result gives exactly `[new row]`, even if the old file held several rows of that period |
| `RollingStore.UpsertKeepsOtherPeriods` | dagster_university/assets/metrics.py:157-158 | the rows of every other period are kept, each as often as the old dataset held it |
| `RollingStore.UpsertKeepsUnique` | dagster_university/assets/metrics.py:157-158 | a dataset without repeated periods stays without repeated periods |
| `RollingStore.UpsertIdempotentRows` | dagster_university/assets/metrics.py:157-158 | upserting the same row twice gives the same rows, with the same multiplicities, as one upsert |
| `RollingStore.UpsertIdempotent` | dagster_university/assets/metrics.py:157-158 | on a dataset with distinct periods, upserting the same row twice gives the identical list one upsert gives |
| `RollingStore.UpsertsCommute` | dagster_university/assets/metrics.py:157-158 | upserts of two different periods give the same dataset in either order, and the second keeps the first's row |
| `RollingStore.Replay` | dagster_university/assets/metrics.py:154-161 | after any non-empty history of upserts starting with no file, the dataset is sorted with no repeated period |
| `RollingStore.ReplayKeepsLatest` | dagster_university/assets/metrics.py:154-161 | after any history of upserts the dataset holds exactly the last row computed for each period |
| `TripsByWeek.Materialize` | dagster_university/assets/metrics.py:121-161 | a run fails, writing nothing, exactly when the `trips` table does not exist yet or the key is not a date. Otherwise the written dataset is sorted and holds the computed row, and with no file the dataset has one row |
| `TripsByWeek.MaterializeReplacesWeek` | dagster_university/assets/metrics.py:154-158 | after a run, the only row of the week's period is the row just computed |
| `TripsByWeek.MaterializeKeepsOtherWeeks` | dagster_university/assets/metrics.py:154-158 | a run keeps every row of another period exactly as often as the persisted dataset held it |
| `TripsByWeek.RerunIsIdempotent` | dagster_university/assets/metrics.py:154-161 | re-running a partition on unchanged trips leaves a dataset with distinct periods exactly as it was |
| `TripsByWeek.DistinctWeeksBothKept` | dagster_university/assets/metrics.py:154-161 | running two different weeks keeps both rows and gives the same dataset in either order |
| `ManhattanStats.ZoneCounts` | dagster_university/assets/metrics.py:20-30 | every output row is in Manhattan, has a geometry and counts at least one trip, and no group appears twice |
| `ManhattanStats.LeftJoinCount` | dagster_university/assets/metrics.py:26-28 | the joined rows of a group are as many as the (trip, zone) pairs with matching zone id in that group |
| `ManhattanStats.ZoneCountsArePairCounts` | dagster_university/assets/metrics.py:22-30 | each output count equals the number of (trip, zone) pairs joined into that zone, borough and geometry |
| `ManhattanStats.ZoneCountsCoverage` | dagster_university/assets/metrics.py:26-30 | a group appears exactly when it is in Manhattan, has a geometry and some trip was picked up in one of its zones; zones without trips or without geometry never appear |

## Left out

- HTTP downloads and raw file writes (`trips.py:21-26`, `trips.py:28-35`): network and file I/O. Only the URL string is modelled.
- `taxi_zones` (`trips.py:71-89`): a `create or replace table` from a CSV file. The zones table is an input of `ManhattanStats.ZoneCounts`.
- The database connection, SQL text and `create table if not exists` (`trips.py:49-55`) are engine plumbing. An absent table is modelled as `None` and becomes empty.
- Decoding the parquet file is not modelled. Its rows are the `file` parameter of `Trips.LoadBatch`, and `None` stands for any file the database cannot read.
- The download does not check the HTTP status (`trips.py:21-26`). An error response is written to the `.parquet` path and later fails to read. That is the `None` case of `Trips.LoadBatch`.
- The local file path template lives in `constants`, which is not part of this model.
- CSV reading and writing (`read_csv` / `to_csv`), including errors from parsing a damaged file.
- Rounding of sums to two decimals and the float/int casts (`metrics.py:148-151`). Amounts and distances are exact hundredths, so the rounding is the identity. Passenger counts are whole numbers, so truncating their sum to an integer is not modelled.
- The `double` columns `rate_code_id` and `passenger_count` (`trips.py:52-53`) are modelled as whole numbers. Fractional passenger counts and rate codes are not represented, and no property depends on `rate_code_id`.
- WKT parsing, the GeoDataFrame, the GeoJSON output (`metrics.py:38-42`) and the plotly map of `manhattan_map` (`metrics.py:45-63`): foreign libraries and rendering.
- The commented-out weekly loop (`metrics.py:66-111`): dead code.
- `dagster_university/resources/__init__.py`: it only configures the database resource from an environment variable.
- Dagster decorators, partition definitions and the dependency graph. The partitions module is not part of this model. Week keys are assumed to be `YYYY-MM-DD` dates.
- Concurrent backfills. Two concurrent read-modify-write runs of `trips_by_week` can lose an update, because the code does no locking. The model covers only runs applied one after another.
- `Calendar.ParseIsoDate` accepts only `YYYY-MM-DD` with a four-digit year. The database's date cast also accepts some other spellings, which partition keys never use.
- The order of query results is not modelled. The model returns rows in table order and groups in order of first appearance. Every stated property is independent of that order; see `WeeklyRollup.AggregatePermutation`.
- NULL `zone` or `borough` values in the zones table are not modelled. A NULL borough fails the Manhattan filter just as any other borough does.
- ManhattanStats.ZoneCounts: assumes that both the `trips` and the `zones` table exist. When either is missing, the query at `metrics.py:35-36` raises before anything is written, and that failure is not modelled.
