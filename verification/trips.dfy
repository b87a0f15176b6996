/** The raw monthly load of `dagster_university/assets/trips.py`: deriving the month of a
    partition, naming the file to download, and replacing that month's rows of the `trips`
    table. */
module Trips {
  import opened Wrappers
  import opened Seqs
  import opened Calendar

  /** A database TIMESTAMP: microseconds since 1970-01-01 00:00:00, no time zone. */
  type Timestamp = int

  /** One trip as the monthly parquet file provides it. Every column may be NULL.
      Money and distance are in hundredths (cents, hundredths of a mile). */
  datatype Trip = Trip(
    vendorId: Option<int>,
    pickupZoneId: Option<int>,
    dropoffZoneId: Option<int>,
    rateCodeId: Option<int>,
    paymentType: Option<int>,
    dropoffDatetime: Option<Timestamp>,
    pickupDatetime: Option<Timestamp>,
    tripDistance: Option<int>,
    passengerCount: Option<int>,
    totalAmount: Option<int>)

  /** A row of the `trips` table: the trip and the month it was loaded under. */
  datatype TripRow = TripRow(trip: Trip, partitionDate: string)

  /** The month of a partition: the key without its last three characters, as the Python
      slice `key[:-3]` computes it (empty when the key is shorter than three). */
  function MonthTag(key: string): (m: string)
    ensures |m| == if |key| >= 3 then |key| - 3 else 0
    ensures m <= key
  {
    if |key| >= 3 then key[..|key| - 3] else ""
  }

  /** For a `YYYY-MM-DD` key the tag is its `YYYY-MM`. */
  lemma MonthTagOfIsoDate(key: string)
    requires ParseIsoDate(key).Some?
    ensures var d := ParseIsoDate(key).value; MonthTag(key) == FormatYearMonth(d.year, d.month)
  {
    var d := ParseIsoDate(key).value;
    FormatParse(key);
    FormatParts(d);
  }

  /** Two date keys get the same tag exactly when they fall in the same calendar month. */
  lemma MonthTagSameMonth(k1: string, k2: string)
    requires ParseIsoDate(k1).Some? && ParseIsoDate(k2).Some?
    ensures var d1, d2 := ParseIsoDate(k1).value, ParseIsoDate(k2).value;
      MonthTag(k1) == MonthTag(k2) <==> d1.year == d2.year && d1.month == d2.month
  {
    var d1, d2 := ParseIsoDate(k1).value, ParseIsoDate(k2).value;
    MonthTagOfIsoDate(k1);
    MonthTagOfIsoDate(k2);
    var f1, f2 := FormatYearMonth(d1.year, d1.month), FormatYearMonth(d2.year, d2.month);
    if f1 == f2 {
      assert f1[..4] == Pad(d1.year, 4) && f2[..4] == Pad(d2.year, 4);
      assert f1[5..] == Pad(d1.month, 2) && f2[5..] == Pad(d2.month, 2);
      PadInjective(d1.year, d2.year, 4);
      PadInjective(d1.month, d2.month, 2);
    }
  }

  // ---------------------------------------------------------------------------
  // Download location

  const DownloadPrefix := "https://d37ci6vzurychx.cloudfront.net/trip-data/"
  const FileStem := "yellow_tripdata_"
  const FileSuffix := ".parquet"

  /** Where the trips of month `m` are published. */
  function TripFileUrl(m: string): (url: string)
    ensures |url| == |DownloadPrefix| + |FileStem| + |m| + |FileSuffix|
  {
    DownloadPrefix + FileStem + m + FileSuffix
  }

  /** Reads the month back out of a trip-file URL; `None` for any other URL. */
  function UrlMonth(url: string): (r: Option<string>)
    ensures r.Some? ==> TripFileUrl(r.value) == url
  {
    var head := |DownloadPrefix| + |FileStem|;
    if |url| >= head + |FileSuffix|
       && url[..head] == DownloadPrefix + FileStem
       && url[|url| - |FileSuffix|..] == FileSuffix
    then
      var m := url[head..|url| - |FileSuffix|];
      assert url == url[..head] + m + url[|url| - |FileSuffix|..];
      Some(m)
    else None
  }

  /** The URL names its month: reading it back recovers the month, so distinct months never
      share a file. */
  lemma UrlMonthRoundTrip(m: string)
    ensures UrlMonth(TripFileUrl(m)) == Some(m)
  {
    var url := TripFileUrl(m);
    var head := |DownloadPrefix| + |FileStem|;
    assert url[..head] == DownloadPrefix + FileStem;
    assert url[|url| - |FileSuffix|..] == FileSuffix;
    assert url[head..|url| - |FileSuffix|] == m;
  }

  // ---------------------------------------------------------------------------
  // Partition replacement

  function InMonth(m: string): TripRow -> bool {
    (r: TripRow) => r.partitionDate == m
  }

  function OtherMonth(m: string): TripRow -> bool {
    (r: TripRow) => r.partitionDate != m
  }

  function TripOf(r: TripRow): Trip {
    r.trip
  }

  /** The rows of a file as inserted for month `m`. */
  function Tagged(file: seq<Trip>, m: string): (rows: seq<TripRow>)
    ensures |rows| == |file|
    ensures forall i :: 0 <= i < |file| ==> rows[i].trip == file[i] && rows[i].partitionDate == m
  {
    Map(file, t => TripRow(t, m))
  }

  /** Loading partition `key`: the table is created when absent (`None`), every row of the
      key's month is deleted, then every row of `file` is inserted tagged with that month. */
  function LoadPartition(table: Option<seq<TripRow>>, key: string, file: seq<Trip>): (r: seq<TripRow>)
    ensures |r| == |Filter(table.GetOr([]), OtherMonth(MonthTag(key)))| + |file|
  {
    var m := MonthTag(key);
    Filter(table.GetOr([]), OtherMonth(m)) + Tagged(file, m)
  }

  /** What the load's statement batch leaves behind, and whether reading the file failed. */
  datatype LoadOutcome = LoadOutcome(table: seq<TripRow>, readFailed: bool)

  /** The load as one statement batch with no transaction around it: the delete takes effect
      before the file is read, so an unreadable file (`None`: missing, or not parquet) leaves the
      month's rows deleted and the asset failing. */
  function LoadBatch(table: Option<seq<TripRow>>, key: string, file: Option<seq<Trip>>): (r: LoadOutcome)
    ensures r.readFailed <==> file.None?
    ensures file.Some? ==> r.table == LoadPartition(table, key, file.value)
    ensures |r.table| == |Filter(table.GetOr([]), OtherMonth(MonthTag(key)))| + |file.GetOr([])|
  {
    var m := MonthTag(key);
    var kept := Filter(table.GetOr([]), OtherMonth(m));
    match file
    case None => LoadOutcome(kept, true)
    case Some(rows) => LoadOutcome(kept + Tagged(rows, m), false)
  }

  /** A failed read still deletes the month: no row of it is left. */
  lemma FailedLoadEmptiesMonth(table: Option<seq<TripRow>>, key: string)
    ensures Filter(LoadBatch(table, key, None).table, InMonth(MonthTag(key))) == []
  {
    var m := MonthTag(key);
    KeptRowsOtherMonth(table.GetOr([]), m);
    FilterDropsAll(Filter(table.GetOr([]), OtherMonth(m)), InMonth(m));
  }

  /** A failed read leaves the rows of every other month as they were, in order. */
  lemma FailedLoadKeepsOtherMonths(table: Option<seq<TripRow>>, key: string, other: string)
    requires other != MonthTag(key)
    ensures Filter(LoadBatch(table, key, None).table, InMonth(other)) == Filter(table.GetOr([]), InMonth(other))
  {
    FilterOfFilter(table.GetOr([]), OtherMonth(MonthTag(key)), InMonth(other), InMonth(other));
  }

  /** Rerunning the partition once the file is readable repairs a failed load: the table ends
      exactly as a first successful load would leave it. */
  lemma RetryAfterFailedLoad(table: Option<seq<TripRow>>, key: string, file: seq<Trip>)
    ensures LoadBatch(Some(LoadBatch(table, key, None).table), key, Some(file)) == LoadBatch(table, key, Some(file))
  {
    var m := MonthTag(key);
    var kept := Filter(table.GetOr([]), OtherMonth(m));
    FilterSatisfies(table.GetOr([]), OtherMonth(m));
    FilterKeepsAll(kept, OtherMonth(m));
  }

  /** After the load the month's rows are exactly the file's rows, in file order, and no row
      the month had before survives unless the file holds it again. */
  lemma LoadReplacesMonth(table: Option<seq<TripRow>>, key: string, file: seq<Trip>)
    ensures var m := MonthTag(key);
      Filter(LoadPartition(table, key, file), InMonth(m)) == Tagged(file, m)
    ensures Map(Filter(LoadPartition(table, key, file), InMonth(MonthTag(key))), TripOf) == file
  {
    var m := MonthTag(key);
    var kept := Filter(table.GetOr([]), OtherMonth(m));
    KeptRowsOtherMonth(table.GetOr([]), m);
    MonthRowsAreFile(kept, file, m);
    assert Map(Tagged(file, m), TripOf) == file;
  }

  lemma KeptRowsOtherMonth(rows: seq<TripRow>, m: string)
    ensures forall i :: 0 <= i < |Filter(rows, OtherMonth(m))| ==> !InMonth(m)(Filter(rows, OtherMonth(m))[i])
  {
    var kept := Filter(rows, OtherMonth(m));
    FilterSatisfies(rows, OtherMonth(m));
    forall i | 0 <= i < |kept| ensures !InMonth(m)(kept[i]) {
      assert OtherMonth(m)(kept[i]);
    }
  }

  lemma MonthRowsAreFile(kept: seq<TripRow>, file: seq<Trip>, m: string)
    requires forall i :: 0 <= i < |kept| ==> !InMonth(m)(kept[i])
    ensures Filter(kept + Tagged(file, m), InMonth(m)) == Tagged(file, m)
  {
    FilterConcat(kept, Tagged(file, m), InMonth(m));
    FilterDropsAll(kept, InMonth(m));
    FilterKeepsAll(Tagged(file, m), InMonth(m));
  }

  /** A load touches no row of any other month: those rows stay as they were, in order. */
  lemma LoadKeepsOtherMonths(table: Option<seq<TripRow>>, key: string, file: seq<Trip>, other: string)
    requires other != MonthTag(key)
    ensures Filter(LoadPartition(table, key, file), InMonth(other)) == Filter(table.GetOr([]), InMonth(other))
  {
    var m := MonthTag(key);
    var rows := table.GetOr([]);
    var kept := Filter(rows, OtherMonth(m));
    FilterConcat(kept, Tagged(file, m), InMonth(other));
    FilterDropsAll(Tagged(file, m), InMonth(other));
    FilterOfFilter(rows, OtherMonth(m), InMonth(other), InMonth(other));
  }

  /** Running the same load twice leaves the table as one run leaves it. */
  lemma LoadIdempotent(table: Option<seq<TripRow>>, key: string, file: seq<Trip>)
    ensures LoadPartition(Some(LoadPartition(table, key, file)), key, file) == LoadPartition(table, key, file)
  {
    var m := MonthTag(key);
    var kept := Filter(table.GetOr([]), OtherMonth(m));
    var tagged := Tagged(file, m);
    var once := LoadPartition(table, key, file);
    assert once == kept + tagged;
    FilterConcat(kept, tagged, OtherMonth(m));
    FilterSatisfies(table.GetOr([]), OtherMonth(m));
    FilterKeepsAll(kept, OtherMonth(m));
    FilterDropsAll(tagged, OtherMonth(m));
    assert Filter(once, OtherMonth(m)) == kept;
  }

  /** Loads of two different months can run in either order: the table ends with the same rows. */
  lemma LoadsOfDistinctMonthsCommute(table: Option<seq<TripRow>>, k1: string, f1: seq<Trip>, k2: string, f2: seq<Trip>)
    requires MonthTag(k1) != MonthTag(k2)
    ensures multiset(LoadPartition(Some(LoadPartition(table, k1, f1)), k2, f2))
         == multiset(LoadPartition(Some(LoadPartition(table, k2, f2)), k1, f1))
  {
    var m1, m2 := MonthTag(k1), MonthTag(k2);
    var rows := table.GetOr([]);
    LoadAfterLoad(table, k1, f1, k2, f2);
    LoadAfterLoad(table, k2, f2, k1, f1);
    FilterSwap(rows, OtherMonth(m1), OtherMonth(m2));
  }

  /** Two loads of different months in a row: the rows of neither month, then the first file,
      then the second. */
  lemma LoadAfterLoad(table: Option<seq<TripRow>>, k1: string, f1: seq<Trip>, k2: string, f2: seq<Trip>)
    requires MonthTag(k1) != MonthTag(k2)
    ensures var m1, m2 := MonthTag(k1), MonthTag(k2);
      LoadPartition(Some(LoadPartition(table, k1, f1)), k2, f2)
        == Filter(Filter(table.GetOr([]), OtherMonth(m1)), OtherMonth(m2)) + Tagged(f1, m1) + Tagged(f2, m2)
  {
    var m1, m2 := MonthTag(k1), MonthTag(k2);
    var kept1, t1 := Filter(table.GetOr([]), OtherMonth(m1)), Tagged(f1, m1);
    assert LoadPartition(table, k1, f1) == kept1 + t1;
    FilterConcat(kept1, t1, OtherMonth(m2));
    FilterKeepsAll(t1, OtherMonth(m2));
  }
}
