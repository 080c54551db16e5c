/**
 * The home page's station list (src/app/page.tsx): the active stations
 * within the chosen radius, nearest first, shown with their newest status
 * row, then narrowed by the fuel filter and the search box.
 */
module HomePage {
  import opened Wrappers
  import opened Text
  import opened SeqUtil
  import opened Schema
  import opened Store
  import opened Listing

  /** A listed station: its distance, all its rows newest first, and the row shown on its card. */
  datatype Entry = Entry(station: Station, distance: real, statuses: seq<StationStatus>, status: Option<StationStatus>)

  function StationOf(e: Entry): Station { e.station }

  function EntryOf(l: Located, statuses: seq<StationStatus>): Entry {
    var rows := StationRows(statuses, l.station.id);
    Entry(l.station, l.distance, rows, Head(rows))
  }

  /**
   * `fetchStations`: the active stations within `radius` of the user,
   * nearest first, each with its rows and its newest row. `distanceOf` is
   * the distance from the user to a station.
   */
  function LoadStations(stations: seq<Station>, distanceOf: Station -> real, radius: real,
                        statuses: seq<StationStatus>): (r: seq<Entry>)
    ensures var near := ActiveWithin(stations, distanceOf, radius);
      |r| == |near| && forall i :: 0 <= i < |r| ==> r[i] == EntryOf(near[i], statuses)
  {
    var near := ActiveWithin(stations, distanceOf, radius);
    seq(|near|, i requires 0 <= i < |near| => EntryOf(near[i], statuses))
  }

  /**
   * The loaded list holds exactly the active stations within the radius,
   * nearest first; each shows its newest row, or none when it has no row.
   */
  lemma LoadedStations(stations: seq<Station>, distanceOf: Station -> real, radius: real,
                       statuses: seq<StationStatus>)
    ensures var r := LoadStations(stations, distanceOf, radius, statuses);
      (forall i :: 0 <= i < |r| ==>
        r[i].station in stations && r[i].station.isActive &&
        r[i].distance == distanceOf(r[i].station) && r[i].distance <= radius &&
        IsNewestOf(statuses, r[i].station.id, r[i].status)) &&
      (forall i, j :: 0 <= i <= j < |r| ==> r[i].distance <= r[j].distance)
  {
    var r := LoadStations(stations, distanceOf, radius, statuses);
    ActiveWithinSound(stations, distanceOf, radius);
    forall i | 0 <= i < |r| ensures IsNewestOf(statuses, r[i].station.id, r[i].status) {
      HeadIsNewest(statuses, r[i].station.id);
    }
  }

  /** Every active station within the radius is listed. */
  lemma LoadedComplete(stations: seq<Station>, distanceOf: Station -> real, radius: real,
                       statuses: seq<StationStatus>, s: Station)
    requires s in stations && s.isActive && distanceOf(s) <= radius
    ensures var r := LoadStations(stations, distanceOf, radius, statuses);
      exists i :: 0 <= i < |r| && r[i].station == s
  {
    var near := ActiveWithin(stations, distanceOf, radius);
    ActiveWithinComplete(stations, distanceOf, radius, s);
    var i :| 0 <= i < |near| && near[i] == Located(s, distanceOf(s));
    assert LoadStations(stations, distanceOf, radius, statuses)[i].station == s;
  }

  // ---------------------------------------------------------------------
  // Fuel filter and search

  /** "Tous", or one fuel type. */
  datatype FuelFilter = AllFuels | OnlyFuel(fuelType: FuelType)

  /** With a specific fuel type the card shows that fuel type's first row instead. */
  function ForFuel(e: Entry, filter: FuelFilter): Entry {
    match filter
    case AllFuels => e
    case OnlyFuel(f) => e.(status := FindFuel(e.statuses, f))
  }

  function ForFuelAll(entries: seq<Entry>, filter: FuelFilter): (r: seq<Entry>)
    ensures |r| == |entries| && forall i :: 0 <= i < |r| ==> r[i] == ForFuel(entries[i], filter)
  {
    seq(|entries|, i requires 0 <= i < |entries| => ForFuel(entries[i], filter))
  }

  function Kept(filter: FuelFilter): Entry -> bool {
    (e: Entry) => filter.AllFuels? || e.status.Some?
  }

  /** `filteredStations` */
  function FilteredStations(entries: seq<Entry>, filter: FuelFilter, searchTerm: string): seq<Entry> {
    Search(Filter(ForFuelAll(entries, filter), Kept(filter)), StationOf, searchTerm)
  }

  /** "Tous" with a blank search shows every loaded station unchanged and in order. */
  lemma AllFuelsBlankSearch(entries: seq<Entry>, searchTerm: string)
    requires IsBlank(searchTerm)
    ensures FilteredStations(entries, AllFuels, searchTerm) == entries
  {
    var r := ForFuelAll(entries, AllFuels);
    assert r == entries;
    FilterAll(r, Kept(AllFuels));
    SearchKeeps(r, StationOf, searchTerm);
  }

  /**
   * The filtered list keeps the order of the loaded list. With one fuel
   * type, a station stays exactly when it has a row of that type (and
   * matches a non-blank search), and its card then shows the first such row.
   */
  lemma FilteredStationsShape(entries: seq<Entry>, filter: FuelFilter, searchTerm: string)
    ensures IsSubsequence(FilteredStations(entries, filter, searchTerm), ForFuelAll(entries, filter))
    ensures filter.OnlyFuel? ==>
      forall i :: 0 <= i < |entries| ==>
        (ForFuel(entries[i], filter) in FilteredStations(entries, filter, searchTerm) <==>
           FindFuel(entries[i].statuses, filter.fuelType).Some? &&
           (IsBlank(searchTerm) || MatchesTerm(entries[i].station, Lower(searchTerm))))
    ensures filter.OnlyFuel? ==>
      forall x :: x in FilteredStations(entries, filter, searchTerm) ==>
        x.status.Some? && x.status.value.fuelType == filter.fuelType && x.status == FindFuel(x.statuses, filter.fuelType)
  {
    FilteredKeepsOrder(entries, filter, searchTerm);
    if filter.OnlyFuel? {
      FilteredMembers(entries, filter.fuelType, searchTerm);
      FilteredRows(entries, filter.fuelType, searchTerm);
    }
  }

  lemma FilteredKeepsOrder(entries: seq<Entry>, filter: FuelFilter, searchTerm: string)
    ensures IsSubsequence(FilteredStations(entries, filter, searchTerm), ForFuelAll(entries, filter))
  {
    var mapped := ForFuelAll(entries, filter);
    var kept := Filter(mapped, Kept(filter));
    FilterIsSubsequence(mapped, Kept(filter));
    SearchKeeps(kept, StationOf, searchTerm);
    SubsequenceTrans(FilteredStations(entries, filter, searchTerm), kept, mapped);
  }

  lemma FilteredMembers(entries: seq<Entry>, f: FuelType, searchTerm: string)
    ensures forall i :: 0 <= i < |entries| ==>
      (ForFuel(entries[i], OnlyFuel(f)) in FilteredStations(entries, OnlyFuel(f), searchTerm) <==>
         FindFuel(entries[i].statuses, f).Some? &&
         (IsBlank(searchTerm) || MatchesTerm(entries[i].station, Lower(searchTerm))))
  {
    var filter := OnlyFuel(f);
    var mapped := ForFuelAll(entries, filter);
    var kept := Filter(mapped, Kept(filter));
    FilterMembers(mapped, Kept(filter));
    SearchKeeps(kept, StationOf, searchTerm);
    forall i | 0 <= i < |entries|
      ensures ForFuel(entries[i], filter) in FilteredStations(entries, filter, searchTerm) <==>
              FindFuel(entries[i].statuses, f).Some? &&
              (IsBlank(searchTerm) || MatchesTerm(entries[i].station, Lower(searchTerm)))
    {
      assert mapped[i] in mapped;
    }
  }

  lemma FilteredRows(entries: seq<Entry>, f: FuelType, searchTerm: string)
    ensures forall x :: x in FilteredStations(entries, OnlyFuel(f), searchTerm) ==>
      x.status.Some? && x.status.value.fuelType == f && x.status == FindFuel(x.statuses, f)
  {
    var filter := OnlyFuel(f);
    var mapped := ForFuelAll(entries, filter);
    var kept := Filter(mapped, Kept(filter));
    FilterMembers(mapped, Kept(filter));
    SearchKeeps(kept, StationOf, searchTerm);
    forall x | x in FilteredStations(entries, filter, searchTerm)
      ensures x.status.Some? && x.status.value.fuelType == f && x.status == FindFuel(x.statuses, f)
    {
      assert x in kept;
      var k :| 0 <= k < |mapped| && mapped[k] == x;
    }
  }
}
