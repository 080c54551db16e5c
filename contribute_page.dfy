/**
 * The contribute page's station list (src/app/contribute/page.tsx): every
 * active station with the newest row among all status rows of the listed
 * stations, nearest first when the user's position is known.
 */
module ContributePage {
  import opened Wrappers
  import opened SeqUtil
  import opened Schema
  import opened Listing

  function InStations(ids: seq<Id>): StationStatus -> bool {
    (r: StationStatus) => r.stationId in ids
  }

  /**
   * `.in('station_id', stationIds).order('updated_at', { ascending: false })`,
   * sent only when there is a station to ask about.
   */
  function FetchedRows(statuses: seq<StationStatus>, ids: seq<Id>): (r: seq<StationStatus>)
    ensures SortedBy(r, NewestFirst)
    ensures forall x :: x in r <==> x in statuses && x.stationId in ids
  {
    if |ids| > 0 then
      FilterMembers(statuses, InStations(ids));
      SortByMembers(Filter(statuses, InStations(ids)), NewestFirst);
      SortBy(Filter(statuses, InStations(ids)), NewestFirst)
    else []
  }

  /** The first row of the station in the order given. */
  function FirstRowOf(rows: seq<StationStatus>, id: Id): (r: Option<StationStatus>)
    ensures r.Some? ==> r.value in rows && r.value.stationId == id
    ensures r.None? <==> forall j :: 0 <= j < |rows| ==> rows[j].stationId != id
  {
    match FirstIndex(rows, OfStation(id))
    case Some(k) => Some(rows[k])
    case None => None
  }

  lemma FirstRowOfSnoc(rows: seq<StationStatus>, x: StationStatus, id: Id)
    ensures FirstRowOf(rows + [x], id) ==
            if FirstRowOf(rows, id).Some? then FirstRowOf(rows, id) else if x.stationId == id then Some(x) else None
  {
    FirstIndexSnoc(rows, x, OfStation(id));
    var f := FirstIndex(rows, OfStation(id));
    if f.Some? {
      assert (rows + [x])[f.value] == rows[f.value];
    }
  }

  /**
   * The `latestStatusByStation` map: walking the rows in order, a station
   * gets the first row seen for it and later rows never replace it.
   */
  method LatestStatusByStation(rows: seq<StationStatus>) returns (latest: map<Id, StationStatus>)
    ensures forall id :: id in latest <==> FirstRowOf(rows, id).Some?
    ensures forall id :: id in latest ==> latest[id] == FirstRowOf(rows, id).value
  {
    latest := map[];
    for i := 0 to |rows|
      invariant forall id :: id in latest <==> FirstRowOf(rows[..i], id).Some?
      invariant forall id :: id in latest ==> latest[id] == FirstRowOf(rows[..i], id).value
    {
      var row := rows[i];
      assert rows[..i + 1] == rows[..i] + [row];
      forall id ensures FirstRowOf(rows[..i + 1], id) ==
        if FirstRowOf(rows[..i], id).Some? then FirstRowOf(rows[..i], id)
        else if row.stationId == id then Some(row) else None
      {
        FirstRowOfSnoc(rows[..i], row, id);
      }
      if row.stationId !in latest {
        latest := latest[row.stationId := row];
      }
    }
    assert rows[..|rows|] == rows;
  }

  /** On rows ordered newest first, the first row of a station is its newest. */
  lemma FirstOfSortedIsNewest(rows: seq<StationStatus>, id: Id)
    requires SortedBy(rows, NewestFirst)
    ensures IsNewestOf(rows, id, FirstRowOf(rows, id))
  {
    var f := FirstIndex(rows, OfStation(id));
    if f.Some? {
      var k := f.value;
      forall m | 0 <= m < |rows| && rows[m].stationId == id ensures rows[m].updatedAt <= rows[k].updatedAt {
        if m > k {
          assert NewestFirst(rows[k]) <= NewestFirst(rows[m]);
        }
      }
    }
  }

  /** Newest among some rows is newest among any rows with the same members of the station. */
  lemma NewestOfSameRows(rows: seq<StationStatus>, statuses: seq<StationStatus>, id: Id, h: Option<StationStatus>)
    requires forall x: StationStatus :: x.stationId == id ==> (x in rows <==> x in statuses)
    requires IsNewestOf(rows, id, h)
    ensures IsNewestOf(statuses, id, h)
  {
    if h.Some? {
      forall j | 0 <= j < |statuses| && statuses[j].stationId == id
        ensures statuses[j].updatedAt <= h.value.updatedAt
      {
        assert statuses[j] in statuses;
        var m :| 0 <= m < |rows| && rows[m] == statuses[j];
      }
    }
  }

  /** The row a listed station gets is its newest row, or none when it has no row. */
  lemma FirstRowIsNewest(statuses: seq<StationStatus>, ids: seq<Id>, id: Id)
    requires id in ids
    ensures IsNewestOf(statuses, id, FirstRowOf(FetchedRows(statuses, ids), id))
  {
    var rows := FetchedRows(statuses, ids);
    FirstOfSortedIsNewest(rows, id);
    NewestOfSameRows(rows, statuses, id, FirstRowOf(rows, id));
  }

  predicate HasDistance(l: Listed) { l.distance.Some? }

  predicate NoDistance(l: Listed) { l.distance.None? }

  function DistanceKey(l: Listed): real {
    if l.distance.Some? then l.distance.value else 0.0
  }

  /**
   * The sort by `distance ?? Infinity`: the stable sort puts the stations
   * with a distance first, nearest first, and keeps the others after them
   * in their order (two infinite keys compare equal).
   */
  function SortByDistance(items: seq<Listed>): seq<Listed> {
    SortBy(Filter(items, HasDistance), DistanceKey) + Filter(items, NoDistance)
  }

  /** The sorted list holds the same stations. */
  lemma SortByDistancePermutes(items: seq<Listed>)
    ensures multiset(SortByDistance(items)) == multiset(items)
  {
    SplitMultiset(items);
  }

  /**
   * In the sorted list the stations with a distance are nearest first, and
   * a station without one is never followed by one with one.
   */
  lemma SortByDistanceOrder(items: seq<Listed>)
    ensures var r := SortByDistance(items);
      (forall i, j :: 0 <= i < j < |r| && r[i].distance.None? ==> r[j].distance.None?) &&
      (forall i, j :: 0 <= i < j < |r| && r[j].distance.Some? ==>
         r[i].distance.Some? && r[i].distance.value <= r[j].distance.value)
  {
    var known := Filter(items, HasDistance);
    var near := SortBy(known, DistanceKey);
    var far := Filter(items, NoDistance);
    var r := near + far;
    forall k | 0 <= k < |near| ensures near[k].distance.Some? {
      assert near[k] in multiset(known);
      assert near[k] in known;
      var m :| 0 <= m < |known| && known[m] == near[k];
    }
    forall i, j | 0 <= i < j < |r| && r[j].distance.Some?
      ensures r[i].distance.Some? && r[i].distance.value <= r[j].distance.value
    {
      assert DistanceKey(near[i]) <= DistanceKey(near[j]);
    }
  }

  /** Filtering on a predicate and on its negation splits a sequence without loss. */
  lemma {:induction false} SplitMultiset(items: seq<Listed>)
    ensures multiset(Filter(items, HasDistance)) + multiset(Filter(items, NoDistance)) == multiset(items)
  {
    if items != [] {
      SplitMultiset(items[1..]);
      assert items == [items[0]] + items[1..];
    }
  }

  /** The active stations with their distance and the first fetched row of each, in fetch order. */
  function Cards(base: seq<Station>, distanceOf: Option<Station -> real>, rows: seq<StationStatus>): (r: seq<Listed>)
    ensures |r| == |base|
    ensures forall i :: 0 <= i < |r| ==> r[i].station == base[i] && r[i].status == FirstRowOf(rows, base[i].id)
  {
    seq(|base|, i requires 0 <= i < |base| =>
      Listed(base[i], if distanceOf.Some? then Some(distanceOf.value(base[i])) else None, FirstRowOf(rows, base[i].id)))
  }

  function IdsOf(base: seq<Station>): (ids: seq<Id>)
    ensures |ids| == |base| && forall i :: 0 <= i < |ids| ==> ids[i] == base[i].id
  {
    seq(|base|, i requires 0 <= i < |base| => base[i].id)
  }

  /**
   * The list: the active stations (`distanceOf` is present when the user's
   * position is known), each with its newest row, then sorted by distance.
   */
  function ContributeStations(stations: seq<Station>, distanceOf: Option<Station -> real>,
                              statuses: seq<StationStatus>): seq<Listed> {
    var base := Filter(stations, IsActive);
    SortByDistance(Cards(base, distanceOf, FetchedRows(statuses, IdsOf(base))))
  }

  /** Every listed station is active and shows its newest row, or none when it has no row. */
  lemma ContributeStationsSound(stations: seq<Station>, distanceOf: Option<Station -> real>,
                                statuses: seq<StationStatus>)
    ensures forall x :: x in ContributeStations(stations, distanceOf, statuses) ==>
      x.station in stations && x.station.isActive && IsNewestOf(statuses, x.station.id, x.status)
  {
    var base := Filter(stations, IsActive);
    var ids := IdsOf(base);
    var items := Cards(base, distanceOf, FetchedRows(statuses, ids));
    SortByDistancePermutes(items);
    FilterMembers(stations, IsActive);
    forall x | x in ContributeStations(stations, distanceOf, statuses)
      ensures x.station in stations && x.station.isActive && IsNewestOf(statuses, x.station.id, x.status)
    {
      assert x in multiset(items);
      var k :| 0 <= k < |items| && items[k] == x;
      assert base[k] in base;
      assert ids[k] == base[k].id;
      FirstRowIsNewest(statuses, ids, base[k].id);
    }
  }

  /** Every active station is listed. */
  lemma ContributeStationsComplete(stations: seq<Station>, distanceOf: Option<Station -> real>,
                                   statuses: seq<StationStatus>, s: Station)
    requires s in stations && s.isActive
    ensures exists x :: x in ContributeStations(stations, distanceOf, statuses) && x.station == s
  {
    var base := Filter(stations, IsActive);
    var items := Cards(base, distanceOf, FetchedRows(statuses, IdsOf(base)));
    SortByDistancePermutes(items);
    FilterMembers(stations, IsActive);
    var k :| 0 <= k < |base| && base[k] == s;
    assert items[k] in multiset(ContributeStations(stations, distanceOf, statuses));
  }
}
