/** The zone aggregation of `manhattan_stats` (`dagster_university/assets/metrics.py`):
    `trips left join zones` on the pickup zone, keep Manhattan zones with a geometry, group by
    zone, borough and geometry, and count the joined rows. */
module ManhattanStats {
  import opened Wrappers
  import opened Seqs
  import opened Trips

  /** A row of the `zones` table. The geometry is polygon text, treated as an opaque value. */
  datatype Zone = Zone(zoneId: int, zone: string, borough: string, geometry: Option<string>)

  /** A row of `trips left join zones`: the zone columns are NULL when no zone matched. */
  datatype Joined = Joined(trip: TripRow, zone: Option<Zone>)

  /** The grouping columns. */
  datatype ZoneKey = ZoneKey(zone: string, borough: string, geometry: Option<string>)

  /** One output row: a zone and the number of trips picked up in it. */
  datatype ZoneStat = ZoneStat(zone: string, borough: string, geometry: Option<string>, numTrips: int)

  const Manhattan := "Manhattan"

  function KeyOf(z: Zone): ZoneKey {
    ZoneKey(z.zone, z.borough, z.geometry)
  }

  function StatKey(s: ZoneStat): ZoneKey {
    ZoneKey(s.zone, s.borough, s.geometry)
  }

  /** The join condition `trips.pickup_zone_id = zones.zone_id`; a NULL id matches nothing. */
  function PicksUpIn(t: TripRow): Zone -> bool {
    (z: Zone) => t.trip.pickupZoneId == Some(z.zoneId)
  }

  /** The joined rows of one trip: one per matching zone, or one with NULL zone columns. */
  function JoinOne(t: TripRow, zones: seq<Zone>): seq<Joined> {
    var matches := Filter(zones, PicksUpIn(t));
    if |matches| == 0 then [Joined(t, None)]
    else Map(matches, (z: Zone) => Joined(t, Some(z)))
  }

  function LeftJoin(trips: seq<TripRow>, zones: seq<Zone>): seq<Joined> {
    if |trips| == 0 then [] else JoinOne(trips[0], zones) + LeftJoin(trips[1..], zones)
  }

  /** The `where borough = 'Manhattan' and geometry is not null` condition; NULL zone columns
      fail it. */
  predicate InManhattan(j: Joined) {
    j.zone.Some? && j.zone.value.borough == Manhattan && j.zone.value.geometry.Some?
  }

  /** The grouping key of a joined row; only applied to rows that passed the filter. */
  function JoinedKey(j: Joined): ZoneKey {
    match j.zone
    case Some(z) => KeyOf(z)
    case None => ZoneKey("", "", None)
  }

  function HasKey(k: ZoneKey): Joined -> bool {
    (j: Joined) => j.zone.Some? && KeyOf(j.zone.value) == k
  }

  /** A key the filter lets through. */
  predicate ManhattanKey(k: ZoneKey) {
    k.borough == Manhattan && k.geometry.Some?
  }

  /** The query result: one row per group, counting the group's joined rows. */
  function ZoneCounts(trips: seq<TripRow>, zones: seq<Zone>): (r: seq<ZoneStat>)
    ensures forall i :: 0 <= i < |r| ==> r[i].borough == Manhattan && r[i].geometry.Some?
    ensures forall i :: 0 <= i < |r| ==> r[i].numTrips >= 1
    ensures forall i, j :: 0 <= i < j < |r| ==> StatKey(r[i]) != StatKey(r[j])
  {
    FilterMembership(LeftJoin(trips, zones), InManhattan);
    var kept := Filter(LeftJoin(trips, zones), InManhattan);
    var keys := Distinct(Map(kept, JoinedKey));
    seq(|keys|, i requires 0 <= i < |keys| => GroupOf(kept, keys[i]))
  }

  /** The output row of group `k`, for a key that occurs among the kept rows. */
  function GroupOf(kept: seq<Joined>, k: ZoneKey): (s: ZoneStat)
    requires forall j :: j in kept ==> InManhattan(j)
    requires k in Map(kept, JoinedKey)
    ensures StatKey(s) == k && ManhattanKey(k) && s.numTrips >= 1
  {
    var i :| 0 <= i < |kept| && JoinedKey(kept[i]) == k;
    assert kept[i] in kept && InManhattan(kept[i]);
    assert HasKey(k)(kept[i]);
    FilterMembership(kept, HasKey(k));
    assert kept[i] in Filter(kept, HasKey(k));
    ZoneStat(k.zone, k.borough, k.geometry, |Filter(kept, HasKey(k))|)
  }

  // ---------------------------------------------------------------------------
  // Reference count

  /** The join condition and the group together: trip `t` picked up in zone `z` of group `k`. */
  function JoinsInto(t: TripRow, k: ZoneKey): Zone -> bool {
    (z: Zone) => t.trip.pickupZoneId == Some(z.zoneId) && KeyOf(z) == k
  }

  /** The number of (trip, zone) pairs that join and fall in group `k`, counted over the two
      tables directly. */
  function PairCount(trips: seq<TripRow>, zones: seq<Zone>, k: ZoneKey): nat {
    if |trips| == 0 then 0
    else |Filter(zones, JoinsInto(trips[0], k))| + PairCount(trips[1..], zones, k)
  }

  function KeyIs(k: ZoneKey): Zone -> bool {
    (z: Zone) => KeyOf(z) == k
  }

  /** Joining one trip to matching zones and selecting group `k` keeps the matching zones of
      group `k`. */
  lemma {:induction false} JoinedZonesOfGroup(t: TripRow, m: seq<Zone>, k: ZoneKey)
    ensures |Filter(Map(m, (z: Zone) => Joined(t, Some(z))), HasKey(k))| == |Filter(m, KeyIs(k))|
    decreases |m|
  {
    if |m| > 0 {
      var mk := (z: Zone) => Joined(t, Some(z));
      assert Map(m, mk) == [mk(m[0])] + Map(m[1..], mk);
      FilterConcat([mk(m[0])], Map(m[1..], mk), HasKey(k));
      JoinedZonesOfGroup(t, m[1..], k);
    }
  }

  /** The joined rows of one trip that fall in group `k` are its (trip, zone) pairs of group `k`. */
  lemma JoinOneCount(t: TripRow, zones: seq<Zone>, k: ZoneKey)
    ensures |Filter(JoinOne(t, zones), HasKey(k))| == |Filter(zones, JoinsInto(t, k))|
  {
    var matches := Filter(zones, PicksUpIn(t));
    FilterOfFilter(zones, PicksUpIn(t), KeyIs(k), JoinsInto(t, k));
    if |matches| == 0 {
      assert Filter([Joined(t, None)], HasKey(k)) == [];
    } else {
      JoinedZonesOfGroup(t, matches, k);
    }
  }

  /** Counting the joined rows of group `k` counts the joining (trip, zone) pairs of group `k`. */
  lemma {:induction false} LeftJoinCount(trips: seq<TripRow>, zones: seq<Zone>, k: ZoneKey)
    ensures |Filter(LeftJoin(trips, zones), HasKey(k))| == PairCount(trips, zones, k)
    decreases |trips|
  {
    if |trips| > 0 {
      FilterConcat(JoinOne(trips[0], zones), LeftJoin(trips[1..], zones), HasKey(k));
      JoinOneCount(trips[0], zones, k);
      LeftJoinCount(trips[1..], zones, k);
    }
  }

  /** For a group the filter admits, filtering first removes none of the group's rows. */
  lemma KeptGroup(trips: seq<TripRow>, zones: seq<Zone>, k: ZoneKey)
    requires ManhattanKey(k)
    ensures |Filter(Filter(LeftJoin(trips, zones), InManhattan), HasKey(k))| == PairCount(trips, zones, k)
  {
    FilterOfFilter(LeftJoin(trips, zones), InManhattan, HasKey(k), HasKey(k));
    LeftJoinCount(trips, zones, k);
  }

  /** Each output row counts exactly the trips picked up in its group's zones: the number of
      (trip, zone) pairs with matching zone id and that zone, borough and geometry. */
  lemma ZoneCountsArePairCounts(trips: seq<TripRow>, zones: seq<Zone>)
    ensures var r := ZoneCounts(trips, zones);
      forall i :: 0 <= i < |r| ==> r[i].numTrips == PairCount(trips, zones, StatKey(r[i]))
  {
    var r := ZoneCounts(trips, zones);
    forall i | 0 <= i < |r| ensures r[i].numTrips == PairCount(trips, zones, StatKey(r[i])) {
      KeptGroup(trips, zones, StatKey(r[i]));
    }
  }

  /** A Manhattan group with a geometry appears in the output exactly when some trip was picked
      up in one of its zones: zones without trips, outside Manhattan or without geometry never
      appear. */
  lemma ZoneCountsCoverage(trips: seq<TripRow>, zones: seq<Zone>, k: ZoneKey)
    ensures k in Map(ZoneCounts(trips, zones), StatKey) <==> ManhattanKey(k) && PairCount(trips, zones, k) > 0
  {
    if k in Map(ZoneCounts(trips, zones), StatKey) {
      CoverageSound(trips, zones, k);
    }
    if ManhattanKey(k) && PairCount(trips, zones, k) > 0 {
      CoverageComplete(trips, zones, k);
    }
  }

  lemma CoverageSound(trips: seq<TripRow>, zones: seq<Zone>, k: ZoneKey)
    requires k in Map(ZoneCounts(trips, zones), StatKey)
    ensures ManhattanKey(k) && PairCount(trips, zones, k) > 0
  {
    var r := ZoneCounts(trips, zones);
    var i :| 0 <= i < |r| && StatKey(r[i]) == k;
    ZoneCountsArePairCounts(trips, zones);
    assert r[i].numTrips >= 1;
  }

  lemma CoverageComplete(trips: seq<TripRow>, zones: seq<Zone>, k: ZoneKey)
    requires ManhattanKey(k) && PairCount(trips, zones, k) > 0
    ensures k in Map(ZoneCounts(trips, zones), StatKey)
  {
    var kept := Filter(LeftJoin(trips, zones), InManhattan);
    KeptGroup(trips, zones, k);
    GroupKeyOccurs(kept, k);
    OutputHasKey(trips, zones, k);
  }

  /** A group with a joined row is among the grouping keys. */
  lemma GroupKeyOccurs(kept: seq<Joined>, k: ZoneKey)
    requires |Filter(kept, HasKey(k))| > 0
    ensures k in Map(kept, JoinedKey)
  {
    var f := Filter(kept, HasKey(k));
    FilterMembership(kept, HasKey(k));
    assert f[0] in f;
    var j :| 0 <= j < |kept| && kept[j] == f[0];
    assert Map(kept, JoinedKey)[j] == k;
  }

  /** Every grouping key gets its output row. */
  lemma OutputHasKey(trips: seq<TripRow>, zones: seq<Zone>, k: ZoneKey)
    requires k in Map(Filter(LeftJoin(trips, zones), InManhattan), JoinedKey)
    ensures k in Map(ZoneCounts(trips, zones), StatKey)
  {
    var keys := Distinct(Map(Filter(LeftJoin(trips, zones), InManhattan), JoinedKey));
    var i :| 0 <= i < |keys| && keys[i] == k;
    var r := ZoneCounts(trips, zones);
    assert StatKey(r[i]) == k;
    assert Map(r, StatKey)[i] == k;
  }
}
