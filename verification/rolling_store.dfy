/** The persisted weekly dataset of `trips_by_week` in `dagster_university/assets/metrics.py`
    and its merge-or-replace update: drop every row of the new row's period, append the new
    row, sort by period as text. */
module RollingStore {
  import opened Wrappers
  import opened Seqs
  import opened LexOrder
  import opened WeeklyRollup

  /** Ascending by period, compared as text. */
  predicate Sorted(rows: seq<WeekRow>) {
    forall i, j :: 0 <= i < j < |rows| ==> LessEq(rows[i].period, rows[j].period)
  }

  /** No period occurs on two rows. */
  predicate UniquePeriods(rows: seq<WeekRow>) {
    forall i, j :: 0 <= i < j < |rows| ==> rows[i].period != rows[j].period
  }

  /** A row in front of a sorted sequence whose periods it does not exceed keeps it sorted. */
  lemma ConsSorted(y: WeekRow, rest: seq<WeekRow>)
    requires Sorted(rest)
    requires forall z :: z in rest ==> LessEq(y.period, z.period)
    ensures Sorted([y] + rest)
  {
    var s := [y] + rest;
    forall i, j | 0 <= i < j < |s| ensures LessEq(s[i].period, s[j].period) {
      if i == 0 {
        assert s[j] == rest[j - 1] && rest[j - 1] in rest;
      } else {
        assert s[i] == rest[i - 1] && s[j] == rest[j - 1];
      }
    }
  }

  /** A row in front of a sequence without repeated periods, whose period the sequence does not
      hold, keeps the periods distinct. */
  lemma ConsUnique(y: WeekRow, rest: seq<WeekRow>)
    requires UniquePeriods(rest)
    requires forall z :: z in rest ==> z.period != y.period
    ensures UniquePeriods([y] + rest)
  {
    var s := [y] + rest;
    forall i, j | 0 <= i < j < |s| ensures s[i].period != s[j].period {
      if i == 0 {
        assert s[j] == rest[j - 1] && rest[j - 1] in rest;
      } else {
        assert s[i] == rest[i - 1] && s[j] == rest[j - 1];
      }
    }
  }

  /** Places `x` before the first row whose period is not smaller, keeping ties in arrival order. */
  function Insert(x: WeekRow, rows: seq<WeekRow>): (r: seq<WeekRow>)
    requires Sorted(rows)
    ensures Sorted(r)
    ensures multiset(r) == multiset(rows) + multiset{x}
  {
    if |rows| == 0 then [x]
    else if LessEq(x.period, rows[0].period) then
      assert rows == [rows[0]] + rows[1..];
      InsertFront(x, rows);
      [x] + rows
    else
      assert rows == [rows[0]] + rows[1..];
      var tail := Insert(x, rows[1..]);
      InsertBehind(x, rows, tail);
      [rows[0]] + tail
  }

  lemma InsertFront(x: WeekRow, rows: seq<WeekRow>)
    requires Sorted(rows) && |rows| > 0 && LessEq(x.period, rows[0].period)
    ensures Sorted([x] + rows)
  {
    forall z | z in rows ensures LessEq(x.period, z.period) {
      var j :| 0 <= j < |rows| && rows[j] == z;
      LessEqTransitive(x.period, rows[0].period, z.period);
    }
    ConsSorted(x, rows);
  }

  lemma InsertBehind(x: WeekRow, rows: seq<WeekRow>, tail: seq<WeekRow>)
    requires Sorted(rows) && |rows| > 0 && !LessEq(x.period, rows[0].period)
    requires Sorted(tail) && multiset(tail) == multiset(rows[1..]) + multiset{x}
    ensures Sorted([rows[0]] + tail)
  {
    LessTotal(x.period, rows[0].period);
    forall z | z in tail ensures LessEq(rows[0].period, z.period) {
      assert z in multiset(tail);
      if z != x {
        assert z in rows[1..];
        var j :| 1 <= j < |rows| && rows[j] == z;
      }
    }
    ConsSorted(rows[0], tail);
  }

  /** Sorts by period. (pandas' default sort leaves the order of equal periods unspecified;
      this one keeps it, and no property below depends on it.) */
  function SortByPeriod(rows: seq<WeekRow>): (r: seq<WeekRow>)
    ensures Sorted(r)
    ensures multiset(r) == multiset(rows)
  {
    if |rows| == 0 then []
    else
      assert rows == [rows[0]] + rows[1..];
      Insert(rows[0], SortByPeriod(rows[1..]))
  }

  /** Inserting a row of a new period keeps the periods distinct. */
  lemma InsertUnique(x: WeekRow, rows: seq<WeekRow>)
    requires Sorted(rows) && UniquePeriods(rows)
    requires forall z :: z in rows ==> z.period != x.period
    ensures UniquePeriods(Insert(x, rows))
  {
    if |rows| == 0 {
    } else if LessEq(x.period, rows[0].period) {
      ConsUnique(x, rows);
    } else {
      var tail := Insert(x, rows[1..]);
      InsertUnique(x, rows[1..]);
      forall z | z in tail ensures z.period != rows[0].period {
        assert z in multiset(tail);
        if z != x {
          assert z in rows[1..];
          var j :| 1 <= j < |rows| && rows[j] == z;
        } else {
          assert rows[0] in rows;
        }
      }
      ConsUnique(rows[0], tail);
    }
  }

  /** Sorting keeps the periods distinct. */
  lemma {:induction false} SortUnique(rows: seq<WeekRow>)
    requires UniquePeriods(rows)
    ensures UniquePeriods(SortByPeriod(rows))
    decreases |rows|
  {
    if |rows| > 0 {
      var rest := SortByPeriod(rows[1..]);
      SortUnique(rows[1..]);
      forall z | z in rest ensures z.period != rows[0].period {
        assert z in multiset(rest);
        assert z in rows[1..];
        var j :| 1 <= j < |rows| && rows[j] == z;
      }
      InsertUnique(rows[0], rest);
    }
  }

  /** A sorted sequence with distinct periods is the only sorted arrangement of its rows. */
  lemma {:induction false} SortedUniqueDetermined(a: seq<WeekRow>, b: seq<WeekRow>)
    requires Sorted(a) && UniquePeriods(a)
    requires Sorted(b) && multiset(a) == multiset(b)
    ensures a == b
    decreases |a|
  {
    assert |a| == |b| by {
      assert |multiset(a)| == |multiset(b)|;
    }
    if |a| > 0 {
      var a', b' := a[1..], b[1..];
      SameHead(a, b);
      TailPermutation(a, b);
      SortedTailOnly(a);
      UniqueTail(a);
      SortedTailOnly(b);
      SortedUniqueDetermined(a', b');
      assert a == [a[0]] + a' && b == [b[0]] + b';
    }
  }

  lemma TailPermutation(a: seq<WeekRow>, b: seq<WeekRow>)
    requires |a| > 0 && |b| > 0 && a[0] == b[0] && multiset(a) == multiset(b)
    ensures multiset(a[1..]) == multiset(b[1..])
  {
    PermutationRemove(a, b, 0);
    assert b[..0] + b[1..] == b[1..];
  }

  lemma SortedTailOnly(s: seq<WeekRow>)
    requires |s| > 0 && Sorted(s)
    ensures Sorted(s[1..])
  {
  }

  /** Two sorted arrangements of the same rows, one with distinct periods, start alike. */
  lemma SameHead(a: seq<WeekRow>, b: seq<WeekRow>)
    requires Sorted(a) && UniquePeriods(a)
    requires Sorted(b) && multiset(a) == multiset(b)
    requires |a| > 0 && |b| > 0
    ensures a[0] == b[0]
  {
    assert a[0] in multiset(b) && b[0] in multiset(a);
    assert b[0] in a && a[0] in b;
    var i :| 0 <= i < |a| && a[i] == b[0];
    var j :| 0 <= j < |b| && b[j] == a[0];
    assert LessEq(a[0].period, a[i].period) by {
      if i > 0 {
        assert LessEq(a[0].period, a[i].period);
      }
    }
    assert LessEq(b[0].period, b[j].period) by {
      if j > 0 {
        assert LessEq(b[0].period, b[j].period);
      }
    }
    LessEqAntisymmetric(a[0].period, b[0].period);
  }

  lemma UniqueTail(s: seq<WeekRow>)
    requires |s| > 0 && UniquePeriods(s)
    ensures UniquePeriods(s[1..])
  {
  }

  // ---------------------------------------------------------------------------
  // Upsert

  function OtherPeriod(p: string): WeekRow -> bool {
    (r: WeekRow) => r.period != p
  }

  /** Merges `row` into the persisted dataset (`None`: the file does not exist yet). */
  function Upsert(existing: Option<seq<WeekRow>>, row: WeekRow): (r: seq<WeekRow>)
    ensures existing.None? ==> r == [row]
    ensures Sorted(r)
    ensures row in r
    ensures |r| == |Filter(existing.GetOr([]), OtherPeriod(row.period))| + 1
  {
    match existing
    case None => [row]
    case Some(rows) =>
      var r := SortByPeriod(Filter(rows, OtherPeriod(row.period)) + [row]);
      assert row in multiset(r);
      r
  }

  /** What the upsert does to each row: the new row is held once and is the only row of its
      period, however many the old dataset had; every row of another period is held exactly as
      often as before. */
  lemma UpsertCounts(existing: Option<seq<WeekRow>>, row: WeekRow)
    ensures forall x: WeekRow :: x.period == row.period ==> multiset(Upsert(existing, row))[x] == if x == row then 1 else 0
    ensures forall x: WeekRow :: x.period != row.period
              ==> multiset(Upsert(existing, row))[x] == multiset(existing.GetOr([]))[x]
  {
    if existing.Some? {
      var rows := existing.value;
      FilterCount(rows, OtherPeriod(row.period));
      var kept := Filter(rows, OtherPeriod(row.period));
      assert multiset(Upsert(existing, row)) == multiset(kept + [row]);
    }
  }

  /** What an upserted dataset holds: the new row, and the old rows of every other period. */
  lemma UpsertMembership(existing: Option<seq<WeekRow>>, row: WeekRow, x: WeekRow)
    ensures x in Upsert(existing, row) <==> x == row || (x in existing.GetOr([]) && x.period != row.period)
  {
    var r := Upsert(existing, row);
    UpsertCounts(existing, row);
    if x.period != row.period {
      assert x in r <==> multiset(r)[x] > 0;
      assert x in existing.GetOr([]) <==> multiset(existing.GetOr([]))[x] > 0;
    }
  }

  function SamePeriod(p: string): WeekRow -> bool {
    (r: WeekRow) => r.period == p
  }

  /** The rows for the new row's period are exactly the new row, once. */
  lemma UpsertReplacesPeriod(existing: Option<seq<WeekRow>>, row: WeekRow)
    ensures Filter(Upsert(existing, row), SamePeriod(row.period)) == [row]
  {
    UpsertCounts(existing, row);
    OnlyRowOfPeriod(Upsert(existing, row), row);
  }

  lemma OnlyRowOfPeriod(r: seq<WeekRow>, row: WeekRow)
    requires forall x: WeekRow :: x.period == row.period ==> multiset(r)[x] == if x == row then 1 else 0
    ensures Filter(r, SamePeriod(row.period)) == [row]
  {
    var f := Filter(r, SamePeriod(row.period));
    FilterCount(r, SamePeriod(row.period));
    forall x: WeekRow ensures multiset(f)[x] == multiset{row}[x] {
    }
    assert multiset(f) == multiset{row};
    assert |f| == 1;
    assert f[0] in multiset(f);
  }

  /** The rows of every other period are kept, each as often as the old dataset held it. */
  lemma UpsertKeepsOtherPeriods(existing: Option<seq<WeekRow>>, row: WeekRow)
    ensures multiset(Filter(Upsert(existing, row), OtherPeriod(row.period)))
         == multiset(Filter(existing.GetOr([]), OtherPeriod(row.period)))
  {
    UpsertCounts(existing, row);
    FilterSameCounts(Upsert(existing, row), existing.GetOr([]), OtherPeriod(row.period));
  }

  /** Upserting into a dataset without repeated periods keeps it without repeated periods. */
  lemma UpsertKeepsUnique(existing: Option<seq<WeekRow>>, row: WeekRow)
    requires existing.Some? ==> UniquePeriods(existing.value)
    ensures UniquePeriods(Upsert(existing, row))
  {
    if existing.Some? {
      var kept := Filter(existing.value, OtherPeriod(row.period));
      FilterUnique(existing.value, OtherPeriod(row.period));
      FilterMembership(existing.value, OtherPeriod(row.period));
      var s := kept + [row];
      forall i, j | 0 <= i < j < |s| ensures s[i].period != s[j].period {
        if j == |s| - 1 {
          assert s[i] in kept;
        } else {
          assert s[i] == kept[i] && s[j] == kept[j];
        }
      }
      SortUnique(s);
    }
  }

  /** Selection keeps the periods distinct. */
  lemma {:induction false} FilterUnique(rows: seq<WeekRow>, p: WeekRow -> bool)
    requires UniquePeriods(rows)
    ensures UniquePeriods(Filter(rows, p))
    decreases |rows|
  {
    if |rows| > 0 {
      var rest := Filter(rows[1..], p);
      FilterUnique(rows[1..], p);
      FilterMembership(rows[1..], p);
      if p(rows[0]) {
        forall z | z in rest ensures z.period != rows[0].period {
          var j :| 1 <= j < |rows| && rows[j] == z;
        }
        ConsUnique(rows[0], rest);
      }
    }
  }

  /** Upserting the same row again keeps the same rows, each as often. */
  lemma UpsertIdempotentRows(existing: Option<seq<WeekRow>>, row: WeekRow)
    ensures multiset(Upsert(Some(Upsert(existing, row)), row)) == multiset(Upsert(existing, row))
  {
    var once := Upsert(existing, row);
    UpsertCounts(existing, row);
    UpsertCounts(Some(once), row);
    RepeatCounts(row, once, Upsert(Some(once), row));
  }

  /** Upserting the same row again into a dataset with distinct periods changes nothing. */
  lemma UpsertIdempotent(existing: Option<seq<WeekRow>>, row: WeekRow)
    requires existing.Some? ==> UniquePeriods(existing.value)
    ensures Upsert(Some(Upsert(existing, row)), row) == Upsert(existing, row)
  {
    var once := Upsert(existing, row);
    UpsertIdempotentRows(existing, row);
    UpsertKeepsUnique(existing, row);
    SortedUniqueDetermined(once, Upsert(Some(once), row));
  }

  /** The counting argument behind `UpsertIdempotentRows`, on the multisets alone. */
  lemma RepeatCounts(row: WeekRow, once: seq<WeekRow>, twice: seq<WeekRow>)
    requires forall x: WeekRow :: x.period == row.period ==> multiset(once)[x] == if x == row then 1 else 0
    requires forall x: WeekRow :: multiset(twice)[x] == if x.period == row.period then (if x == row then 1 else 0) else multiset(once)[x]
    ensures multiset(twice) == multiset(once)
  {
    forall x: WeekRow ensures multiset(twice)[x] == multiset(once)[x] {
    }
  }

  /** Upserts of two different periods commute, and each leaves the other's row in place. */
  lemma UpsertsCommute(existing: Option<seq<WeekRow>>, r1: WeekRow, r2: WeekRow)
    requires r1.period != r2.period
    ensures multiset(Upsert(Some(Upsert(existing, r1)), r2)) == multiset(Upsert(Some(Upsert(existing, r2)), r1))
    ensures (existing.Some? ==> UniquePeriods(existing.value))
            ==> Upsert(Some(Upsert(existing, r1)), r2) == Upsert(Some(Upsert(existing, r2)), r1)
    ensures r1 in Upsert(Some(Upsert(existing, r1)), r2)
  {
    var e := existing.GetOr([]);
    var m1, m2 := Upsert(existing, r1), Upsert(existing, r2);
    var a, b := Upsert(Some(m1), r2), Upsert(Some(m2), r1);
    UpsertCounts(existing, r1);
    UpsertCounts(existing, r2);
    UpsertCounts(Some(m1), r2);
    UpsertCounts(Some(m2), r1);
    SwapCounts(e, r1, r2, m1, m2, a, b);
    UpsertMembership(Some(m1), r2, r1);
    if existing.Some? ==> UniquePeriods(existing.value) {
      UpsertKeepsUnique(existing, r1);
      UpsertKeepsUnique(Some(m1), r2);
      SortedUniqueDetermined(a, b);
    }
  }

  /** The counting argument behind `UpsertsCommute`, on the multisets alone. */
  lemma SwapCounts(e: seq<WeekRow>, r1: WeekRow, r2: WeekRow,
                   m1: seq<WeekRow>, m2: seq<WeekRow>, a: seq<WeekRow>, b: seq<WeekRow>)
    requires r1.period != r2.period
    requires forall x: WeekRow :: multiset(m1)[x] == if x.period == r1.period then (if x == r1 then 1 else 0) else multiset(e)[x]
    requires forall x: WeekRow :: multiset(m2)[x] == if x.period == r2.period then (if x == r2 then 1 else 0) else multiset(e)[x]
    requires forall x: WeekRow :: multiset(a)[x] == if x.period == r2.period then (if x == r2 then 1 else 0) else multiset(m1)[x]
    requires forall x: WeekRow :: multiset(b)[x] == if x.period == r1.period then (if x == r1 then 1 else 0) else multiset(m2)[x]
    ensures multiset(a) == multiset(b)
  {
    forall x: WeekRow ensures multiset(a)[x] == multiset(b)[x] {
    }
  }

  // ---------------------------------------------------------------------------
  // Histories of upserts

  /** The dataset after upserting `rows` in order, starting with no file. */
  function Replay(rows: seq<WeekRow>): (r: Option<seq<WeekRow>>)
    ensures r.None? <==> |rows| == 0
    ensures r.Some? ==> Sorted(r.value) && UniquePeriods(r.value)
  {
    if |rows| == 0 then None
    else
      var before := Replay(rows[..|rows| - 1]);
      UpsertKeepsUnique(before, rows[|rows| - 1]);
      Some(Upsert(before, rows[|rows| - 1]))
  }

  /** Holds when `rows[i]` is the last row for its period. */
  predicate LatestFor(rows: seq<WeekRow>, i: int) {
    0 <= i < |rows| && forall j :: i < j < |rows| ==> rows[j].period != rows[i].period
  }

  /** After any history of upserts the dataset holds exactly the last row computed for each
      period. */
  lemma {:induction false} ReplayKeepsLatest(rows: seq<WeekRow>, x: WeekRow)
    ensures x in Replay(rows).GetOr([]) <==> exists i :: LatestFor(rows, i) && rows[i] == x
    decreases |rows|
  {
    if |rows| > 0 {
      var n := |rows| - 1;
      var prefix := rows[..n];
      ReplayKeepsLatest(prefix, x);
      UpsertMembership(Replay(prefix), rows[n], x);
      LatestStep(rows, prefix, Replay(prefix).GetOr([]), Replay(rows).GetOr([]), x);
    }
  }

  /** One step of `ReplayKeepsLatest`: upserting the last row of a history. */
  lemma LatestStep(rows: seq<WeekRow>, prefix: seq<WeekRow>, before: seq<WeekRow>, after: seq<WeekRow>, x: WeekRow)
    requires |rows| > 0 && prefix == rows[..|rows| - 1]
    requires x in before <==> exists i :: LatestFor(prefix, i) && prefix[i] == x
    requires x in after <==> x == rows[|rows| - 1] || (x in before && x.period != rows[|rows| - 1].period)
    ensures x in after <==> exists i :: LatestFor(rows, i) && rows[i] == x
  {
    var n := |rows| - 1;
    if x in after {
      if x == rows[n] {
        assert LatestFor(rows, n);
      } else {
        var i :| LatestFor(prefix, i) && prefix[i] == x;
        LatestExtend(rows, prefix, i);
      }
    }
    if exists i :: LatestFor(rows, i) && rows[i] == x {
      var i :| LatestFor(rows, i) && rows[i] == x;
      if i < n {
        LatestRestrict(rows, prefix, i);
        assert prefix[i] == x;
      }
    }
  }

  lemma LatestExtend(rows: seq<WeekRow>, prefix: seq<WeekRow>, i: int)
    requires |rows| > 0 && prefix == rows[..|rows| - 1]
    requires LatestFor(prefix, i) && rows[|rows| - 1].period != prefix[i].period
    ensures LatestFor(rows, i) && rows[i] == prefix[i]
  {
  }

  lemma LatestRestrict(rows: seq<WeekRow>, prefix: seq<WeekRow>, i: int)
    requires |rows| > 0 && prefix == rows[..|rows| - 1]
    requires LatestFor(rows, i) && i < |rows| - 1
    ensures LatestFor(prefix, i) && rows[i] == prefix[i] && rows[|rows| - 1].period != rows[i].period
  {
  }
}
