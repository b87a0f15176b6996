/** One run of the weekly asset `trips_by_week` (`dagster_university/assets/metrics.py`):
    compute the partition's summary row, then merge it into the persisted dataset. */
module TripsByWeek {
  import opened Wrappers
  import opened Seqs
  import opened Calendar
  import opened Trips
  import opened WeeklyRollup
  import opened RollingStore

  /** The dataset written back after running partition `key` over the `trips` table (`None`
      when no monthly load has created it yet), given the persisted dataset (`None` when the
      file does not exist). The weekly query raises when the table is missing or the key is not
      a date; the failure comes before the file is read, so nothing is written. The table is
      resolved before the key's cast is evaluated, so a missing table is the error reported
      when both apply. */
  function Materialize(key: string, trips: Option<seq<TripRow>>, existing: Option<seq<WeekRow>>): (r: Result<seq<WeekRow>, Error>)
    ensures r.Failure? <==> trips.None? || ParseIsoDate(key).None?
    ensures trips.None? ==> r == Failure(MissingTable("trips"))
    ensures trips.Some? && ParseIsoDate(key).None? ==> r == Failure(InvalidPartitionKey(key))
    ensures r.Success? ==> Sorted(r.value)
    ensures r.Success? ==> WeekSummary(key, trips.value).value in r.value
    ensures r.Success? && existing.None? ==> |r.value| == 1
  {
    if trips.None? then Failure(MissingTable("trips"))
    else
      var row :- WeekSummary(key, trips.value);
      Success(Upsert(existing, row))
  }

  /** A successful run leaves the week's computed row as the only row of its period. */
  lemma MaterializeReplacesWeek(key: string, trips: seq<TripRow>, existing: Option<seq<WeekRow>>)
    requires Materialize(key, Some(trips), existing).Success?
    ensures Filter(Materialize(key, Some(trips), existing).value, SamePeriod(key)) == [WeekSummary(key, trips).value]
  {
    UpsertReplacesPeriod(existing, WeekSummary(key, trips).value);
  }

  /** A successful run keeps every row of another period exactly as often as the persisted
      dataset held it. */
  lemma MaterializeKeepsOtherWeeks(key: string, trips: seq<TripRow>, existing: Option<seq<WeekRow>>)
    requires Materialize(key, Some(trips), existing).Success?
    ensures multiset(Filter(Materialize(key, Some(trips), existing).value, OtherPeriod(key)))
         == multiset(Filter(existing.GetOr([]), OtherPeriod(key)))
  {
    UpsertKeepsOtherPeriods(existing, WeekSummary(key, trips).value);
  }

  /** Re-running a partition on unchanged trips leaves a dataset with distinct periods as it was. */
  lemma RerunIsIdempotent(key: string, trips: seq<TripRow>, existing: Option<seq<WeekRow>>)
    requires Materialize(key, Some(trips), existing).Success?
    requires existing.Some? ==> UniquePeriods(existing.value)
    ensures Materialize(key, Some(trips), Some(Materialize(key, Some(trips), existing).value)) == Materialize(key, Some(trips), existing)
  {
    UpsertIdempotent(existing, WeekSummary(key, trips).value);
  }

  /** Running two different weeks one after the other keeps both weeks' rows, in either order,
      and the dataset ends the same either way. */
  lemma DistinctWeeksBothKept(k1: string, k2: string, trips: seq<TripRow>, existing: Option<seq<WeekRow>>)
    requires Materialize(k1, Some(trips), existing).Success? && Materialize(k2, Some(trips), existing).Success?
    requires k1 != k2
    requires existing.Some? ==> UniquePeriods(existing.value)
    ensures var both := Materialize(k2, Some(trips), Some(Materialize(k1, Some(trips), existing).value));
      && both.Success?
      && WeekSummary(k1, trips).value in both.value
      && WeekSummary(k2, trips).value in both.value
      && both == Materialize(k1, Some(trips), Some(Materialize(k2, Some(trips), existing).value))
  {
    var r1, r2 := WeekSummary(k1, trips).value, WeekSummary(k2, trips).value;
    UpsertsCommute(existing, r1, r2);
  }
}
