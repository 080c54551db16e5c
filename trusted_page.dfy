/**
 * The trusted reporter's station list (src/app/trusted/page.tsx): within
 * 50 km and nearest first when the user's position is known, otherwise every
 * active station in fetched order; each with its newest row; then the
 * search box.
 */
module TrustedPage {
  import opened Wrappers
  import opened Text
  import opened SeqUtil
  import opened Schema
  import opened Listing

  /** The radius of the trusted list, in kilometres. */
  const TRUSTED_RADIUS: real := 50.0

  /** The card of a station: `.order('updated_at', desc).limit(1).maybeSingle()` gives its newest row. */
  function CardOf(s: Station, distance: Option<real>, statuses: seq<StationStatus>): Listed {
    Listed(s, distance, Head(StationRows(statuses, s.id)))
  }

  /** `loadStations`; `distanceOf` is present when the user's position is known. */
  function TrustedStations(stations: seq<Station>, distanceOf: Option<Station -> real>,
                           statuses: seq<StationStatus>): (r: seq<Listed>)
    ensures distanceOf.None? ==>
      var active := Filter(stations, IsActive);
      |r| == |active| && forall i :: 0 <= i < |r| ==> r[i] == CardOf(active[i], None, statuses)
    ensures distanceOf.Some? ==>
      var near := ActiveWithin(stations, distanceOf.value, TRUSTED_RADIUS);
      |r| == |near| && forall i :: 0 <= i < |r| ==> r[i] == CardOf(near[i].station, Some(near[i].distance), statuses)
  {
    if distanceOf.Some? then
      var near := ActiveWithin(stations, distanceOf.value, TRUSTED_RADIUS);
      seq(|near|, i requires 0 <= i < |near| => CardOf(near[i].station, Some(near[i].distance), statuses))
    else
      var active := Filter(stations, IsActive);
      seq(|active|, i requires 0 <= i < |active| => CardOf(active[i], None, statuses))
  }

  /**
   * With a position, only active stations within 50 km are listed, at their
   * distance, nearest first; each shows its newest row.
   */
  lemma NearbyTrustedSound(stations: seq<Station>, distanceOf: Station -> real, statuses: seq<StationStatus>)
    ensures var r := TrustedStations(stations, Some(distanceOf), statuses);
      (forall i :: 0 <= i < |r| ==>
        r[i].station in stations && r[i].station.isActive &&
        r[i].distance == Some(distanceOf(r[i].station)) && distanceOf(r[i].station) <= TRUSTED_RADIUS) &&
      (forall i, j :: 0 <= i <= j < |r| ==> distanceOf(r[i].station) <= distanceOf(r[j].station))
  {
    ActiveWithinSound(stations, distanceOf, TRUSTED_RADIUS);
  }

  /** With a position, each card shows the newest row of its station. */
  lemma NearbyTrustedNewest(stations: seq<Station>, distanceOf: Station -> real, statuses: seq<StationStatus>)
    ensures var r := TrustedStations(stations, Some(distanceOf), statuses);
      forall i :: 0 <= i < |r| ==> IsNewestOf(statuses, r[i].station.id, r[i].status)
  {
    var r := TrustedStations(stations, Some(distanceOf), statuses);
    forall i | 0 <= i < |r| ensures IsNewestOf(statuses, r[i].station.id, r[i].status) {
      HeadIsNewest(statuses, r[i].station.id);
    }
  }

  /** With a position, every active station within 50 km is listed. */
  lemma NearbyTrustedComplete(stations: seq<Station>, distanceOf: Station -> real, statuses: seq<StationStatus>, s: Station)
    requires s in stations && s.isActive && distanceOf(s) <= TRUSTED_RADIUS
    ensures var r := TrustedStations(stations, Some(distanceOf), statuses);
      exists i :: 0 <= i < |r| && r[i].station == s && r[i].distance == Some(distanceOf(s))
  {
    var near := ActiveWithin(stations, distanceOf, TRUSTED_RADIUS);
    var r := TrustedStations(stations, Some(distanceOf), statuses);
    ActiveWithinComplete(stations, distanceOf, TRUSTED_RADIUS, s);
    var i :| 0 <= i < |near| && near[i] == Located(s, distanceOf(s));
    assert r[i].station == s && r[i].distance == Some(distanceOf(s));
  }

  /** Without a position, every active station is listed in fetched order, without distance. */
  lemma AllTrustedStations(stations: seq<Station>, statuses: seq<StationStatus>)
    ensures var r := TrustedStations(stations, None, statuses);
      var active := Filter(stations, IsActive);
      |r| == |active| &&
      forall i :: 0 <= i < |r| ==>
        r[i].station == active[i] && r[i].distance.None? && IsNewestOf(statuses, active[i].id, r[i].status)
  {
    var active := Filter(stations, IsActive);
    forall i | 0 <= i < |active| ensures IsNewestOf(statuses, active[i].id, Head(StationRows(statuses, active[i].id))) {
      HeadIsNewest(statuses, active[i].id);
    }
  }

  // ---------------------------------------------------------------------
  // Search

  /** The page's own test: name, municipality, neighborhood, or a present brand, contains the query. */
  predicate QueryMatches(s: Station, query: string) {
    Contains(Lower(s.name), query) || Contains(Lower(s.municipality), query) ||
    Contains(Lower(s.neighborhood), query) || (s.brand.Some? && Contains(Lower(s.brand.value), query))
  }

  function QueryMatching(query: string): Listed -> bool {
    (l: Listed) => QueryMatches(l.station, query)
  }

  /** `filteredStations`: only the empty query keeps everything; any other is lower-cased and matched. */
  function FilteredStations(stations: seq<Listed>, searchQuery: string): seq<Listed> {
    if searchQuery == "" then stations else Filter(stations, QueryMatching(Lower(searchQuery)))
  }

  /** For a non-empty query this test is the one the other lists use. */
  lemma QueryMatchesIsMatchesTerm(s: Station, query: string)
    requires query != ""
    ensures QueryMatches(s, query) <==> MatchesTerm(s, query)
  {
    if s.brand.None? || s.brand.value == "" {
      assert Lower("") == "";
      assert !Contains("", query);
    }
  }

  /**
   * The empty query keeps every station; any other keeps, in order, exactly
   * those whose texts contain the lower-cased query.
   */
  lemma FilteredStationsShape(stations: seq<Listed>, searchQuery: string)
    ensures IsSubsequence(FilteredStations(stations, searchQuery), stations)
    ensures searchQuery == "" ==> FilteredStations(stations, searchQuery) == stations
    ensures searchQuery != "" ==>
      forall x :: x in FilteredStations(stations, searchQuery) <==>
        x in stations && MatchesTerm(x.station, Lower(searchQuery))
  {
    if searchQuery == "" {
      SubsequenceRefl(stations);
    } else {
      FilterIsSubsequence(stations, QueryMatching(Lower(searchQuery)));
      FilterMembers(stations, QueryMatching(Lower(searchQuery)));
      forall x: Listed ensures QueryMatches(x.station, Lower(searchQuery)) <==> MatchesTerm(x.station, Lower(searchQuery)) {
        QueryMatchesIsMatchesTerm(x.station, Lower(searchQuery));
      }
    }
  }
}
