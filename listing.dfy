/**
 * What the three station lists (the home page, the contribute page and the
 * trusted reporter's page) share: stations paired with their distance from
 * the user, the radius filter with its sort by distance, the newest status
 * row of a station, and the case-insensitive text search.
 */
module Listing {
  import opened Wrappers
  import opened Text
  import opened SeqUtil
  import opened Schema

  /** A station with its distance from the user, in kilometres. */
  datatype Located = Located(station: Station, distance: real)

  function Distance(l: Located): real { l.distance }

  function WithinRadius(radius: real): Located -> bool {
    (l: Located) => l.distance <= radius
  }

  /** `stations.map(s => ({...s, distance}))`; the distance itself is an input. */
  function Locate(stations: seq<Station>, distanceOf: Station -> real): (r: seq<Located>)
    ensures |r| == |stations| && forall i :: 0 <= i < |r| ==> r[i] == Located(stations[i], distanceOf(stations[i]))
  {
    seq(|stations|, i requires 0 <= i < |stations| => Located(stations[i], distanceOf(stations[i])))
  }

  /**
   * `.filter(s => s.distance <= radius).sort((a, b) => a.distance - b.distance)`:
   * exactly the stations within the radius, nearest first, each as often as
   * it was fetched.
   */
  function NearestWithin(located: seq<Located>, radius: real): (r: seq<Located>)
    ensures SortedBy(r, Distance)
    ensures forall x :: x in r <==> x in located && x.distance <= radius
    ensures multiset(r) == multiset(Filter(located, WithinRadius(radius)))
  {
    var near := Filter(located, WithinRadius(radius));
    FilterMembers(located, WithinRadius(radius));
    SortByMembers(near, Distance);
    SortBy(near, Distance)
  }

  /** Every station of a list sorted by distance is at least as near as those after it. */
  lemma NearestFirst(r: seq<Located>, i: nat, j: nat)
    requires SortedBy(r, Distance) && i <= j < |r|
    ensures r[i].distance <= r[j].distance
  {
    if i < j {
      assert Distance(r[i]) <= Distance(r[j]);
    }
  }

  /** The active stations of `stations` within `radius`, nearest first. */
  function ActiveWithin(stations: seq<Station>, distanceOf: Station -> real, radius: real): seq<Located> {
    NearestWithin(Locate(Filter(stations, IsActive), distanceOf), radius)
  }

  /** Only active stations within the radius are kept, at their distance, nearest first. */
  lemma ActiveWithinSound(stations: seq<Station>, distanceOf: Station -> real, radius: real)
    ensures var r := ActiveWithin(stations, distanceOf, radius);
      (forall i :: 0 <= i < |r| ==>
        r[i].station in stations && r[i].station.isActive &&
        r[i].distance == distanceOf(r[i].station) && r[i].distance <= radius) &&
      (forall i, j :: 0 <= i <= j < |r| ==> r[i].distance <= r[j].distance)
  {
    var active := Filter(stations, IsActive);
    var located := Locate(active, distanceOf);
    var r := ActiveWithin(stations, distanceOf, radius);
    FilterMembers(stations, IsActive);
    forall i | 0 <= i < |r|
      ensures r[i].station in stations && r[i].station.isActive
      ensures r[i].distance == distanceOf(r[i].station) && r[i].distance <= radius
    {
      assert r[i] in r;
      var k :| 0 <= k < |located| && located[k] == r[i];
      assert active[k] in active;
    }
    forall i, j | 0 <= i <= j < |r| ensures r[i].distance <= r[j].distance {
      NearestFirst(r, i, j);
    }
  }

  /** Every active station within the radius is kept. */
  lemma ActiveWithinComplete(stations: seq<Station>, distanceOf: Station -> real, radius: real, s: Station)
    requires s in stations && s.isActive && distanceOf(s) <= radius
    ensures Located(s, distanceOf(s)) in ActiveWithin(stations, distanceOf, radius)
  {
    var active := Filter(stations, IsActive);
    var located := Locate(active, distanceOf);
    FilterMembers(stations, IsActive);
    var k :| 0 <= k < |active| && active[k] == s;
    assert located[k] in located;
  }

  function OfStation(id: Id): StationStatus -> bool {
    (r: StationStatus) => r.stationId == id
  }

  /** The sort key of `order('updated_at', { ascending: false })`. */
  function NewestFirst(r: StationStatus): real {
    -(r.updatedAt as real)
  }

  /**
   * `from('station_status').select('*').eq('station_id', id).order('updated_at', { ascending: false })`:
   * the station's rows, newest first; rows written at the same instant keep
   * their table order.
   */
  function StationRows(statuses: seq<StationStatus>, id: Id): (r: seq<StationStatus>)
    ensures SortedBy(r, NewestFirst)
    ensures forall x :: x in r <==> x in statuses && x.stationId == id
  {
    var own := Filter(statuses, OfStation(id));
    FilterMembers(statuses, OfStation(id));
    SortByMembers(own, NewestFirst);
    SortBy(own, NewestFirst)
  }

  /** `rows?.[0]` */
  function Head(rows: seq<StationStatus>): (r: Option<StationStatus>)
    ensures r.None? <==> rows == []
    ensures r.Some? ==> r.value == rows[0]
  {
    if rows == [] then None else Some(rows[0])
  }

  /** `h` is none when the station has no row, and otherwise one of its rows with none newer. */
  predicate IsNewestOf(statuses: seq<StationStatus>, id: Id, h: Option<StationStatus>) {
    (h.None? <==> forall j :: 0 <= j < |statuses| ==> statuses[j].stationId != id) &&
    (h.Some? ==>
      h.value in statuses && h.value.stationId == id &&
      forall j :: 0 <= j < |statuses| && statuses[j].stationId == id ==> statuses[j].updatedAt <= h.value.updatedAt)
  }

  /** The first of the station's rows is one of its rows, and none of its rows is newer. */
  lemma HeadIsNewest(statuses: seq<StationStatus>, id: Id)
    ensures IsNewestOf(statuses, id, Head(StationRows(statuses, id)))
  {
    var rows := StationRows(statuses, id);
    if rows != [] {
      assert rows[0] in rows;
      forall j | 0 <= j < |statuses| && statuses[j].stationId == id
        ensures statuses[j].updatedAt <= rows[0].updatedAt
      {
        assert statuses[j] in rows;
        var k :| 0 <= k < |rows| && rows[k] == statuses[j];
        if k > 0 {
          assert NewestFirst(rows[0]) <= NewestFirst(rows[k]);
        }
      }
    }
  }

  /** A card of the contribute or trusted list: the station, its distance if known, and the row shown. */
  datatype Listed = Listed(station: Station, distance: Option<real>, status: Option<StationStatus>)

  function ListedStation(l: Listed): Station { l.station }

  // ---------------------------------------------------------------------
  // Search

  /**
   * The station's name, brand, neighborhood or municipality contains the
   * (already lower-cased) term once lower-cased; no brand is the empty text.
   */
  predicate MatchesTerm(s: Station, term: string) {
    Contains(Lower(s.name), term) || Contains(Lower(OrElse(s.brand, "")), term) ||
    Contains(Lower(s.neighborhood), term) || Contains(Lower(s.municipality), term)
  }

  function Matching<T>(stationOf: T -> Station, term: string): T -> bool {
    (x: T) => MatchesTerm(stationOf(x), term)
  }

  /**
   * The search of the home and contribute pages: a blank term keeps every
   * station; otherwise the stations matching the lower-cased term, in order.
   */
  function Search<T>(items: seq<T>, stationOf: T -> Station, searchTerm: string): seq<T> {
    if Trim(searchTerm) == "" then items else Filter(items, Matching(stationOf, Lower(searchTerm)))
  }

  /**
   * The search keeps the order of the list and drops only stations that do
   * not match; a blank term keeps all of them.
   */
  lemma SearchKeeps<T>(items: seq<T>, stationOf: T -> Station, searchTerm: string)
    ensures IsSubsequence(Search(items, stationOf, searchTerm), items)
    ensures IsBlank(searchTerm) ==> Search(items, stationOf, searchTerm) == items
    ensures !IsBlank(searchTerm) ==>
      forall x :: x in Search(items, stationOf, searchTerm) <==> x in items && MatchesTerm(stationOf(x), Lower(searchTerm))
  {
    TrimEmptyIffBlank(searchTerm);
    if Trim(searchTerm) == "" {
      SubsequenceRefl(items);
    } else {
      FilterIsSubsequence(items, Matching(stationOf, Lower(searchTerm)));
      FilterMembers(items, Matching(stationOf, Lower(searchTerm)));
    }
  }

  /** The case of the term does not matter. */
  lemma SearchIgnoresCase<T>(items: seq<T>, stationOf: T -> Station, searchTerm: string)
    ensures Search(items, stationOf, Lower(searchTerm)) == Search(items, stationOf, searchTerm)
  {
    LowerIdempotent(searchTerm);
    LowerTrimCommute(searchTerm);
  }
}
