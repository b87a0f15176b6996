/** The computation half of `trips_by_week` in `dagster_university/assets/metrics.py`:
    select the trips picked up during the week that starts at the partition key, and reduce
    them to one summary row. */
module WeeklyRollup {
  import opened Wrappers
  import opened Seqs
  import opened Calendar
  import opened Trips

  const MicrosPerDay := 86_400_000_000
  const DaysPerWeek := 7

  /** The half-open interval `[start, end)` of pickup times belonging to one partition. */
  datatype Window = Window(start: Timestamp, end: Timestamp)

  /** Why a weekly run raises: the key is not a date, or a table it reads does not exist. */
  datatype Error = InvalidPartitionKey(key: string) | MissingTable(name: string)

  /** Midnight of the date a key names. */
  function Midnight(key: string): Timestamp
    requires ParseIsoDate(key).Some?
  {
    DayNumber(ParseIsoDate(key).value) * MicrosPerDay
  }

  /** The week of a key: from midnight of its date to midnight seven days later. A key that
      is not a date makes the query fail. */
  function WeekWindow(key: string): (r: Result<Window, Error>)
    ensures r.Failure? <==> ParseIsoDate(key).None?
    ensures r.Failure? ==> r.error == InvalidPartitionKey(key)
    ensures r.Success? ==> r.value.start == DayNumber(ParseIsoDate(key).value) * MicrosPerDay
    ensures r.Success? ==> r.value.end - r.value.start == DaysPerWeek * MicrosPerDay
    ensures r.Success? ==> r.value.start % MicrosPerDay == 0
  {
    if ParseIsoDate(key).None? then Failure(InvalidPartitionKey(key))
    else
      var start := Midnight(key);
      Success(Window(start, start + DaysPerWeek * MicrosPerDay))
  }

  /** A pickup time inside the window; a NULL time compares as unknown and is never selected. */
  predicate InWindow(w: Window, t: Option<Timestamp>) {
    t.Some? && w.start <= t.value < w.end
  }

  /** A pickup made during calendar day `e` is in the key's week exactly when `e` is the key's
      date or one of the six days after it (day numbers have no gaps, see `NextDateStep`). */
  lemma PickupDayInWeek(key: string, e: Date, t: Timestamp)
    requires ParseIsoDate(key).Some? && Valid(e)
    requires DayNumber(e) * MicrosPerDay <= t < (DayNumber(e) + 1) * MicrosPerDay
    ensures InWindow(WeekWindow(key).value, Some(t))
        <==> 0 <= DayNumber(e) - DayNumber(ParseIsoDate(key).value) < DaysPerWeek
  {
  }

  function PickedUpIn(w: Window): TripRow -> bool {
    (r: TripRow) => InWindow(w, r.trip.pickupDatetime)
  }

  /** The rows the weekly query returns. */
  function SelectWeek(w: Window, trips: seq<TripRow>): seq<TripRow> {
    Filter(trips, PickedUpIn(w))
  }

  /** The query returns a row exactly when its pickup lies in the window, as often as the
      table holds it. */
  lemma SelectWeekContents(w: Window, trips: seq<TripRow>)
    ensures forall x :: x in SelectWeek(w, trips) <==> (x in trips && InWindow(w, x.trip.pickupDatetime))
    ensures forall x :: multiset(SelectWeek(w, trips))[x]
                     == if InWindow(w, x.trip.pickupDatetime) then multiset(trips)[x] else 0
  {
    FilterMembership(trips, PickedUpIn(w));
    FilterCount(trips, PickedUpIn(w));
  }

  /** Windows of two distinct keys that fall on the same weekday never overlap, so weekly
      partitions count no trip twice. */
  lemma WeekWindowsDisjoint(k1: string, k2: string, t: Timestamp)
    requires WeekWindow(k1).Success? && WeekWindow(k2).Success?
    requires ParseIsoDate(k1) != ParseIsoDate(k2)
    requires (DayNumber(ParseIsoDate(k1).value) - DayNumber(ParseIsoDate(k2).value)) % DaysPerWeek == 0
    ensures !(InWindow(WeekWindow(k1).value, Some(t)) && InWindow(WeekWindow(k2).value, Some(t)))
  {
    var d1, d2 := ParseIsoDate(k1).value, ParseIsoDate(k2).value;
    DayNumberOrder(d1, d2);
    var n1, n2 := DayNumber(d1), DayNumber(d2);
    WeekApart(n1, n2);
    if n1 < n2 {
      WeekApartInMicros(n1, n2);
    } else {
      WeekApartInMicros(n2, n1);
    }
  }

  /** Distinct days on the same weekday are at least a week apart. */
  lemma WeekApart(a: int, b: int)
    requires a != b && (a - b) % DaysPerWeek == 0
    ensures a + DaysPerWeek <= b || b + DaysPerWeek <= a
  {
  }

  lemma WeekApartInMicros(a: int, b: int)
    requires a + DaysPerWeek <= b
    ensures a * MicrosPerDay + DaysPerWeek * MicrosPerDay <= b * MicrosPerDay
  {
  }

  /** Keys that are dates sort as text exactly as their weeks sort in time. */
  lemma KeyOrderIsTimeOrder(k1: string, k2: string)
    requires ParseIsoDate(k1).Some? && ParseIsoDate(k2).Some?
    ensures LexOrder.Less(k1, k2) <==> WeekWindow(k1).value.start < WeekWindow(k2).value.start
  {
    var d1, d2 := ParseIsoDate(k1).value, ParseIsoDate(k2).value;
    FormatParse(k1);
    FormatParse(k2);
    FormatOrder(d1, d2);
    DayNumberOrder(d1, d2);
    var n1, n2 := DayNumber(d1), DayNumber(d2);
    assert n1 < n2 <==> n1 * MicrosPerDay < n2 * MicrosPerDay;
  }

  // ---------------------------------------------------------------------------
  // Aggregation

  /** Count and sums over a set of trips, before the period is attached. */
  datatype Totals = Totals(numTrips: int, totalAmount: int, tripDistance: int, passengerCount: int)

  const NoTotals := Totals(0, 0, 0, 0)

  function Add(a: Totals, b: Totals): Totals {
    Totals(a.numTrips + b.numTrips, a.totalAmount + b.totalAmount,
           a.tripDistance + b.tripDistance, a.passengerCount + b.passengerCount)
  }

  /** What one row adds: the count counts non-NULL vendor ids (pandas `count`), and the
      sums skip NULLs (pandas `sum`). */
  function Contribution(r: TripRow): Totals {
    Totals(if r.trip.vendorId.Some? then 1 else 0,
           r.trip.totalAmount.GetOr(0),
           r.trip.tripDistance.GetOr(0),
           r.trip.passengerCount.GetOr(0))
  }

  /** The reduction of the selected rows; the sums of no rows are 0. */
  function Aggregate(rows: seq<TripRow>): (t: Totals)
    ensures 0 <= t.numTrips <= |rows|
  {
    if |rows| == 0 then NoTotals else Add(Contribution(rows[0]), Aggregate(rows[1..]))
  }

  predicate HasVendor(r: TripRow) {
    r.trip.vendorId.Some?
  }

  /** The reduction of a concatenation is the sum of the reductions. */
  lemma {:induction false} AggregateConcat(a: seq<TripRow>, b: seq<TripRow>)
    ensures Aggregate(a + b) == Add(Aggregate(a), Aggregate(b))
    decreases |a|
  {
    if |a| == 0 {
      assert a + b == b;
    } else {
      assert (a + b)[0] == a[0];
      assert (a + b)[1..] == a[1..] + b;
      AggregateConcat(a[1..], b);
      calc {
        Aggregate(a + b);
        Add(Contribution(a[0]), Aggregate(a[1..] + b));
        Add(Contribution(a[0]), Add(Aggregate(a[1..]), Aggregate(b)));
        Add(Add(Contribution(a[0]), Aggregate(a[1..])), Aggregate(b));
      }
    }
  }

  /** The trip count is the number of rows with a vendor id. */
  lemma {:induction false} AggregateCountsVendorRows(rows: seq<TripRow>)
    ensures Aggregate(rows).numTrips == |Filter(rows, HasVendor)|
    decreases |rows|
  {
    if |rows| > 0 {
      AggregateCountsVendorRows(rows[1..]);
    }
  }

  /** The reduction does not depend on the order the query returns rows in. */
  lemma {:induction false} AggregatePermutation(a: seq<TripRow>, b: seq<TripRow>)
    requires multiset(a) == multiset(b)
    ensures Aggregate(a) == Aggregate(b)
    decreases |a|
  {
    if |a| > 0 {
      var x := a[0];
      assert x in multiset(b);
      var i :| 0 <= i < |b| && b[i] == x;
      assert b == b[..i] + [x] + b[i + 1..];
      var rest := b[..i] + b[i + 1..];
      PermutationRemove(a, b, i);
      AggregatePermutation(a[1..], rest);
      AggregateConcat(b[..i] + [x], b[i + 1..]);
      AggregateConcat(b[..i], [x]);
      AggregateConcat(b[..i], b[i + 1..]);
      assert Aggregate([x]) == Contribution(x);
    }
  }

  /** One summary row of the rolling dataset. */
  datatype WeekRow = WeekRow(period: string, numTrips: int, totalAmount: int, tripDistance: int, passengerCount: int)

  function Summary(key: string, t: Totals): WeekRow {
    WeekRow(key, t.numTrips, t.totalAmount, t.tripDistance, t.passengerCount)
  }

  /** The row `trips_by_week` computes for partition `key`: the period is the key itself and
      the trip count is the number of the week's rows that carry a vendor id. */
  function WeekSummary(key: string, trips: seq<TripRow>): (r: Result<WeekRow, Error>)
    ensures r.Failure? <==> ParseIsoDate(key).None?
    ensures r.Success? ==> r.value.period == key
    ensures r.Success? ==> r.value.numTrips == |Filter(SelectWeek(WeekWindow(key).value, trips), HasVendor)|
    ensures r.Success? ==> 0 <= r.value.numTrips <= |SelectWeek(WeekWindow(key).value, trips)|
  {
    var w :- WeekWindow(key);
    var selected := SelectWeek(w, trips);
    AggregateCountsVendorRows(selected);
    Success(Summary(key, Aggregate(selected)))
  }

  /** A week without pickups gives a row of zeros, not an error or a missing value. */
  lemma QuietWeekIsZero(key: string, trips: seq<TripRow>)
    requires WeekWindow(key).Success?
    requires forall i :: 0 <= i < |trips| ==> !InWindow(WeekWindow(key).value, trips[i].trip.pickupDatetime)
    ensures WeekSummary(key, trips) == Success(WeekRow(key, 0, 0, 0, 0))
  {
    FilterDropsAll(trips, PickedUpIn(WeekWindow(key).value));
  }

  /** When every row of the week has a vendor id, the count is the number of rows of the week. */
  lemma CountIsWeekRows(key: string, trips: seq<TripRow>)
    requires WeekWindow(key).Success?
    requires forall i :: 0 <= i < |trips| ==> trips[i].trip.vendorId.Some?
    ensures WeekSummary(key, trips).value.numTrips == |SelectWeek(WeekWindow(key).value, trips)|
  {
    var selected := SelectWeek(WeekWindow(key).value, trips);
    SelectWeekContents(WeekWindow(key).value, trips);
    forall i | 0 <= i < |selected| ensures HasVendor(selected[i]) {
      assert selected[i] in selected;
    }
    FilterKeepsAll(selected, HasVendor);
  }

  /** A trip picked up outside the week leaves the week's row unchanged. */
  lemma OutsideTripIgnored(key: string, trips: seq<TripRow>, t: TripRow)
    requires WeekWindow(key).Success?
    requires !InWindow(WeekWindow(key).value, t.trip.pickupDatetime)
    ensures WeekSummary(key, trips + [t]) == WeekSummary(key, trips)
  {
    var w := WeekWindow(key).value;
    FilterConcat(trips, [t], PickedUpIn(w));
    assert Filter([t], PickedUpIn(w)) == [];
    assert SelectWeek(w, trips + [t]) == SelectWeek(w, trips);
  }

  /** A trip picked up inside the week adds its own contribution to the row. */
  lemma InsideTripAdded(key: string, trips: seq<TripRow>, t: TripRow)
    requires WeekWindow(key).Success?
    requires InWindow(WeekWindow(key).value, t.trip.pickupDatetime)
    ensures var before, after := WeekSummary(key, trips).value, WeekSummary(key, trips + [t]).value;
      && after.numTrips == before.numTrips + (if t.trip.vendorId.Some? then 1 else 0)
      && after.totalAmount == before.totalAmount + t.trip.totalAmount.GetOr(0)
      && after.tripDistance == before.tripDistance + t.trip.tripDistance.GetOr(0)
      && after.passengerCount == before.passengerCount + t.trip.passengerCount.GetOr(0)
  {
    var w := WeekWindow(key).value;
    FilterConcat(trips, [t], PickedUpIn(w));
    assert Filter([t], PickedUpIn(w)) == [t];
    AggregateConcat(SelectWeek(w, trips), [t]);
    assert Aggregate([t]) == Contribution(t);
  }

  /** The row depends only on which trips the table holds, not on their order. */
  lemma WeekSummaryPermutation(key: string, a: seq<TripRow>, b: seq<TripRow>)
    requires multiset(a) == multiset(b)
    ensures WeekSummary(key, a) == WeekSummary(key, b)
  {
    if WeekWindow(key).Success? {
      var w := WeekWindow(key).value;
      var sa, sb := SelectWeek(w, a), SelectWeek(w, b);
      SelectWeekContents(w, a);
      SelectWeekContents(w, b);
      assert multiset(sa) == multiset(sb) by {
        forall x ensures multiset(sa)[x] == multiset(sb)[x] {
        }
      }
      AggregatePermutation(sa, sb);
    }
  }
}
