/**
 * The station import script (scripts/import-stations.ts): map the external
 * API's fuel types and statuses, then for each fetched station skip it,
 * update the station with the same name and municipality or insert a new
 * one, and record its latest report as status rows and contributions.
 */
module ImportStations {
  import opened Wrappers
  import opened Text
  import opened SeqUtil
  import opened Schema
  import opened Store
  import StationUtils
  import ContributeRoute

  /** `mapFuelType`: never empty, and no fuel type twice. */
  function MapFuelType(fuelType: string): (r: seq<FuelType>)
    ensures r != []
    ensures forall i, j :: 0 <= i < j < |r| ==> r[i] != r[j]
  {
    var key := Lower(fuelType);
    if key == "essence" then [Essence]
    else if key == "diesel" then [Gasoil]
    else if key == "both" then [Essence, Gasoil]
    else [Essence]
  }

  /** The API's name of each fuel type. */
  function FuelTypeKey(fuelType: FuelType): (key: string)
    ensures forall j :: 0 <= j < |key| ==> IsAsciiLower(key[j])
  {
    match fuelType
    case Essence => "essence"
    case Gasoil => "diesel"
  }

  lemma LowerOfAsciiLower(s: string)
    requires forall j :: 0 <= j < |s| ==> IsAsciiLower(s[j])
    ensures Lower(s) == s
  {
  }

  /** The API's name of a fuel type maps back to that fuel type alone. */
  lemma MapFuelTypeKey(fuelType: FuelType)
    ensures MapFuelType(FuelTypeKey(fuelType)) == [fuelType]
  {
    LowerOfAsciiLower(FuelTypeKey(fuelType));
  }

  lemma MapFuelTypeIgnoresCase(fuelType: string)
    ensures MapFuelType(Lower(fuelType)) == MapFuelType(fuelType)
  {
    LowerIdempotent(fuelType);
  }

  /** "both" in any letter case gives both fuel types, in their usual order. */
  lemma MapFuelTypeBoth(fuelType: string)
    requires Lower(fuelType) == "both"
    ensures MapFuelType(fuelType) == FUEL_TYPES
  {
  }

  /** Any other text falls back to ESSENCE. */
  lemma MapFuelTypeDefault(fuelType: string)
    requires Lower(fuelType) != "essence" && Lower(fuelType) != "diesel" && Lower(fuelType) != "both"
    ensures MapFuelType(fuelType) == [Essence]
  {
  }

  /** `mapAvailability` */
  function MapAvailability(status: string): Availability {
    var key := Lower(status);
    if key == "available" then Available
    else if key == "limited" then Limited
    else Out
  }

  /** The API's name of each availability. */
  function AvailabilityKey(availability: Availability): (key: string)
    ensures forall j :: 0 <= j < |key| ==> IsAsciiLower(key[j])
  {
    match availability
    case Available => "available"
    case Limited => "limited"
    case Out => "out"
  }

  /** Every availability is recognised by its API name. */
  lemma MapAvailabilityKey(availability: Availability)
    ensures MapAvailability(AvailabilityKey(availability)) == availability
  {
    LowerOfAsciiLower(AvailabilityKey(availability));
  }

  lemma MapAvailabilityIgnoresCase(status: string)
    ensures MapAvailability(Lower(status)) == MapAvailability(status)
  {
    LowerIdempotent(status);
  }

  /** An unknown status is read as OUT. */
  lemma MapAvailabilityDefault(status: string)
    requires forall a: Availability :: Lower(status) != AvailabilityKey(a)
    ensures MapAvailability(status) == Out
  {
    assert Lower(status) != AvailabilityKey(Available);
    assert Lower(status) != AvailabilityKey(Limited);
  }

  /** The `latest_report` of a fetched station; an empty `created_at` is `None`. */
  datatype Report = Report(fuelType: string, status: string, createdAt: Option<Millis>)

  /** A station as the external API returns it; absent fields are `None`. */
  datatype BkoStation = BkoStation(
    name: Option<string>,
    brand: Option<string>,
    latitude: Option<real>,
    longitude: Option<real>,
    address: Option<string>,
    quartier: Option<string>,
    commune: Option<string>,
    latestReport: Option<Report>)

  /** A number is truthy when present and not zero. */
  predicate Truthy(x: Option<real>) {
    x.Some? && x.value != 0.0
  }

  /** A station without a name, a latitude or a longitude is skipped. */
  predicate IsSkipped(s: BkoStation) {
    OrElse(s.name, "") == "" || !Truthy(s.latitude) || !Truthy(s.longitude)
  }

  function Municipality(s: BkoStation): string {
    Trim(OrElse(s.commune, "Bamako"))
  }

  function Neighborhood(s: BkoStation): string {
    Trim(OrElse(s.quartier, OrElse(s.address, "Inconnu")))
  }

  /** The first of `patterns` the (untrimmed) name matches, in the name's letters, capitalised. */
  function PatternBrand(name: string, patterns: seq<string>): (r: Option<string>) {
    match StationUtils.FirstMatch(name, patterns)
    case Some(i) => Some(StationUtils.Capitalize(name[..|patterns[i]|]))
    case None => None
  }

  /** The given brand, trimmed, unless blank; otherwise the brand of the name's prefix, or null. */
  function ImportBrand(s: BkoStation): Option<string>
    requires s.name.Some?
  {
    ImportBrandWith(s, StationUtils.BRAND_PATTERNS)
  }

  /** The import's brand rule over a given pattern list. */
  function ImportBrandWith(s: BkoStation, patterns: seq<string>): Option<string>
    requires s.name.Some?
  {
    var given := if s.brand.Some? then Trim(s.brand.value) else "";
    if given != "" then Some(given) else PatternBrand(s.name.value, patterns)
  }

  /** The row written for a station that is not skipped. */
  function StationRow(id: Id, s: BkoStation): Station
    requires !IsSkipped(s)
  {
    Station(id, Trim(s.name.value), ImportBrand(s), Municipality(s), Neighborhood(s),
            s.latitude.value, s.longitude.value, true)
  }

  /** The lookup of an existing station: same name and municipality. */
  function SameSite(name: string, municipality: string): Station -> bool {
    (st: Station) => st.name == name && st.municipality == municipality
  }

  /** The station row in the table the lookup finds, if exactly one matches. */
  function ExistingStation(stations: seq<Station>, s: BkoStation): (r: Option<nat>)
    requires !IsSkipped(s)
    ensures r.Some? ==> r.value < |stations|
  {
    SingleIndex(stations, SameSite(Trim(s.name.value), Municipality(s)))
  }

  /** The id of the station row written: the existing station's, or the new one's. */
  function WrittenId(stations: seq<Station>, s: BkoStation, freshId: Id): Id
    requires !IsSkipped(s)
  {
    var existing := ExistingStation(stations, s);
    if existing.Some? then stations[existing.value].id else freshId
  }

  /** The station table after the update of the existing row, or the insert of a new one. */
  function WrittenStations(stations: seq<Station>, s: BkoStation, freshId: Id): seq<Station>
    requires !IsSkipped(s)
  {
    var existing := ExistingStation(stations, s);
    var row := StationRow(WrittenId(stations, s, freshId), s);
    if existing.Some? then stations[existing.value := row] else stations + [row]
  }

  /** The status step for one fuel type: update the pair's single row, else insert one. */
  function ImportedStatus(rows: seq<StationStatus>, stationId: Id, fuelType: FuelType,
                          availability: Availability, at: Millis): seq<StationStatus>
  {
    match SinglePairIndex(rows, stationId, fuelType)
    case Some(k) => rows[k := rows[k].(availability := availability, lastUpdateSource := Public, updatedAt := at)]
    case None => rows + [NewStatusRow(stationId, fuelType, availability, Public, at)]
  }

  function ImportFuels(rows: seq<StationStatus>, stationId: Id, availability: Availability, at: Millis,
                       fuels: seq<FuelType>): seq<StationStatus>
  {
    if fuels == [] then rows
    else ImportedStatus(ImportFuels(rows, stationId, availability, at, fuels[..|fuels| - 1]),
                        stationId, fuels[|fuels| - 1], availability, at)
  }

  /** The anonymous PUBLIC contribution recorded once per fuel type of a report. */
  function ReportContribution(stationId: Id, availability: Availability, at: Millis): Contribution {
    Contribution(stationId, None, Public, None, Some(availability), at)
  }

  function Repeat<T>(x: T, n: nat): (r: seq<T>)
    ensures |r| == n && forall j :: 0 <= j < n ==> r[j] == x
  {
    seq(n, _ => x)
  }

  datatype Outcome = Skipped | Imported | Updated | Failed

  /** The three tables the import writes. */
  datatype Tables = Tables(stations: seq<Station>, statuses: seq<StationStatus>, contributions: seq<Contribution>)

  /**
   * The loop body for one fetched station. `freshId` is the id the database
   * gives an inserted station and `writeOk` whether the station update or
   * insert succeeds (a failure is counted as an error and ends the station's
   * step). The status writes and contribution inserts are not checked by the
   * script and always land here.
   */
  function ImportOne(t: Tables, s: BkoStation, freshId: Id, writeOk: bool, now: Millis): (Tables, Outcome) {
    if IsSkipped(s) then (t, Skipped)
    else if !writeOk then (t, Failed)
    else
      var stationId := WrittenId(t.stations, s, freshId);
      var stations := WrittenStations(t.stations, s, freshId);
      var outcome := if ExistingStation(t.stations, s).Some? then Updated else Imported;
      match s.latestReport
      case None => (Tables(stations, t.statuses, t.contributions), outcome)
      case Some(report) =>
        var fuels := MapFuelType(report.fuelType);
        var availability := MapAvailability(report.status);
        var at := report.createdAt.GetOr(now);
        (Tables(stations, ImportFuels(t.statuses, stationId, availability, at, fuels),
                t.contributions + Repeat(ReportContribution(stationId, availability, at), |fuels|)),
         outcome)
  }

  datatype Summary = Summary(imported: nat, updated: nat, skipped: nat, errors: nat)

  function Tally(s: Summary, o: Outcome): Summary {
    match o
    case Imported => s.(imported := s.imported + 1)
    case Updated => s.(updated := s.updated + 1)
    case Skipped => s.(skipped := s.skipped + 1)
    case Failed => s.(errors := s.errors + 1)
  }

  /** The tables and the counters after importing `input` in order. */
  function ImportAll(t: Tables, input: seq<BkoStation>, freshIds: seq<Id>, writeOks: seq<bool>, now: Millis)
    : (Tables, Summary)
    requires |freshIds| == |input| && |writeOks| == |input|
  {
    if input == [] then (t, Summary(0, 0, 0, 0))
    else
      var n := |input| - 1;
      var before := ImportAll(t, input[..n], freshIds[..n], writeOks[..n], now);
      var step := ImportOne(before.0, input[n], freshIds[n], writeOks[n], now);
      (step.0, Tally(before.1, step.1))
  }

  /** A skipped station, or one whose station write fails, changes no table. */
  lemma NoWriteWithoutStation(t: Tables, s: BkoStation, freshId: Id, writeOk: bool, now: Millis)
    requires IsSkipped(s) || !writeOk
    ensures var r := ImportOne(t, s, freshId, writeOk, now);
      r.0 == t && r.1 == (if IsSkipped(s) then Skipped else Failed)
  {
  }

  /**
   * A written station is an update exactly when one station with the same
   * trimmed name and municipality exists, and an insert (one more station)
   * otherwise; no other station row changes.
   */
  lemma StationWritten(t: Tables, s: BkoStation, freshId: Id, now: Millis)
    requires !IsSkipped(s)
    ensures var r := ImportOne(t, s, freshId, true, now);
      var matching := Count(t.stations, SameSite(Trim(s.name.value), Municipality(s)));
      (r.1 == Updated <==> matching == 1) &&
      (r.1 == Imported <==> matching != 1) &&
      (r.1 == Imported ==> r.0.stations == t.stations + [StationRow(freshId, s)]) &&
      (r.1 == Updated ==> exists k :: (0 <= k < |t.stations| &&
                                        SameSite(Trim(s.name.value), Municipality(s))(t.stations[k]) &&
                                        r.0.stations == t.stations[k := StationRow(t.stations[k].id, s)]))
  {
    var e := ExistingStation(t.stations, s);
    ImportOneStations(t, s, freshId, now);
    if e.Some? {
      var k := e.value;
      assert SameSite(Trim(s.name.value), Municipality(s))(t.stations[k]);
    }
  }

  /** The station table and the outcome of a written station, whatever its report. */
  lemma ImportOneStations(t: Tables, s: BkoStation, freshId: Id, now: Millis)
    requires !IsSkipped(s)
    ensures var r := ImportOne(t, s, freshId, true, now);
      var e := ExistingStation(t.stations, s);
      (e.Some? ==> r.0.stations == t.stations[e.value := StationRow(t.stations[e.value].id, s)] && r.1 == Updated) &&
      (e.None? ==> r.0.stations == t.stations + [StationRow(freshId, s)] && r.1 == Imported)
  {
    match s.latestReport
    case None =>
    case Some(report) =>
  }

  /** The municipality is the commune, trimmed, defaulting to Bamako. */
  lemma MunicipalityDefault(s: BkoStation)
    ensures OrElse(s.commune, "") == "" ==> Municipality(s) == "Bamako"
    ensures OrElse(s.commune, "") != "" ==> Municipality(s) == Trim(s.commune.value)
  {
    TrimUntouched("Bamako");
  }

  /** The neighbourhood is the quarter, else the address, else "Inconnu", trimmed. */
  lemma NeighborhoodDefault(s: BkoStation)
    ensures OrElse(s.quartier, "") != "" ==> Neighborhood(s) == Trim(s.quartier.value)
    ensures OrElse(s.quartier, "") == "" && OrElse(s.address, "") != "" ==> Neighborhood(s) == Trim(s.address.value)
    ensures OrElse(s.quartier, "") == "" && OrElse(s.address, "") == "" ==> Neighborhood(s) == "Inconnu"
  {
    TrimUntouched("Inconnu");
  }

  /**
   * The import repeats `extractBrandFromName` on the name as fetched: for a
   * name without surrounding whitespace both give the same brand, with the
   * empty brand stored as null.
   */
  lemma ImportBrandAgrees(s: BkoStation)
    requires s.name.Some? && Trim(s.name.value) == s.name.value
    ensures var e := StationUtils.ExtractBrandFromName(s.name.value, s.brand);
      ImportBrand(s) == (if e == "" then None else Some(e))
  {
    StationUtils.BrandPatternsWellFormed();
    BrandRulesAgree(s, StationUtils.BRAND_PATTERNS);
  }

  /** Both brand rules agree over any list of patterns. */
  lemma BrandRulesAgree(s: BkoStation, patterns: seq<string>)
    requires s.name.Some? && Trim(s.name.value) == s.name.value
    requires forall i :: 0 <= i < |patterns| ==> StationUtils.IsPattern(patterns[i])
    ensures var e := StationUtils.ExtractBrand(s.name.value, s.brand, patterns);
      ImportBrandWith(s, patterns) == (if e == "" then None else Some(e))
  {
    var name := s.name.value;
    var given := if s.brand.Some? then Trim(s.brand.value) else "";
    if given != "" {
      assert ImportBrandWith(s, patterns) == Some(given);
      assert StationUtils.ExtractBrand(name, s.brand, patterns) == given;
    } else {
      assert ImportBrandWith(s, patterns) == PatternBrand(name, patterns);
      match StationUtils.FirstMatch(name, patterns)
      case Some(i) =>
        assert StationUtils.IsPattern(patterns[i]);
        var b := StationUtils.Capitalize(name[..|patterns[i]|]);
        assert |b| > 0;
        assert PatternBrand(name, patterns) == Some(b);
        assert StationUtils.ExtractBrand(name, s.brand, patterns) == b;
      case None =>
        assert PatternBrand(name, patterns) == None;
        assert StationUtils.ExtractBrand(name, s.brand, patterns) == "";
    }
  }

  /** Under one row per pair, the import's status step is the ingest route's update-or-insert. */
  lemma ImportedStatusIsUpsert(rows: seq<StationStatus>, stationId: Id, fuelType: FuelType,
                               availability: Availability, at: Millis)
    requires UniquePairs(rows)
    ensures ImportedStatus(rows, stationId, fuelType, availability, at) ==
            ContributeRoute.Upsert(rows, stationId, fuelType, availability, at)
  {
    SingleIsNewest(rows, stationId, fuelType);
    assert PairCount(rows, stationId, fuelType) <= 1;
  }

  lemma {:induction false} ImportFuelsIsReportAll(rows: seq<StationStatus>, stationId: Id,
                                                  availability: Availability, at: Millis, fuels: seq<FuelType>)
    requires UniquePairs(rows)
    ensures ImportFuels(rows, stationId, availability, at, fuels) ==
            ContributeRoute.ReportAll(rows, stationId, availability, at, fuels)
    ensures UniquePairs(ImportFuels(rows, stationId, availability, at, fuels))
  {
    if fuels != [] {
      var n := |fuels| - 1;
      ImportFuelsIsReportAll(rows, stationId, availability, at, fuels[..n]);
      var mid := ImportFuels(rows, stationId, availability, at, fuels[..n]);
      ImportedStatusIsUpsert(mid, stationId, fuels[n], availability, at);
      ContributeRoute.UpsertKeepsUnique(mid, stationId, fuels[n], availability, at);
    }
  }

  /** What a written station's report adds to the status and contribution tables. */
  lemma ImportOneReport(t: Tables, s: BkoStation, freshId: Id, now: Millis)
    requires !IsSkipped(s) && s.latestReport.Some?
    ensures var r := ImportOne(t, s, freshId, true, now).0;
      var stationId := WrittenId(t.stations, s, freshId);
      var report := s.latestReport.value;
      var fuels := MapFuelType(report.fuelType);
      var availability := MapAvailability(report.status);
      var at := report.createdAt.GetOr(now);
      r.statuses == ImportFuels(t.statuses, stationId, availability, at, fuels) &&
      r.contributions == t.contributions + Repeat(ReportContribution(stationId, availability, at), |fuels|)
  {
  }

  /**
   * Recording a report: each mapped fuel type ends with exactly one row,
   * carrying the reported availability, source PUBLIC and the report's time,
   * and rows of other stations are untouched.
   */
  lemma ReportRecorded(rows: seq<StationStatus>, stationId: Id, report: Report, now: Millis)
    requires UniquePairs(rows)
    ensures var fuels := MapFuelType(report.fuelType);
      var availability := MapAvailability(report.status);
      var at := report.createdAt.GetOr(now);
      var r := ImportFuels(rows, stationId, availability, at, fuels);
      UniquePairs(r) && |rows| <= |r| &&
      (forall j :: 0 <= j < |fuels| ==> ContributeRoute.HoldsReport(r, stationId, fuels[j], availability, at)) &&
      (forall j :: 0 <= j < |rows| && rows[j].stationId != stationId ==> r[j] == rows[j]) &&
      (forall j :: |rows| <= j < |r| ==> r[j].stationId == stationId)
  {
    var fuels := MapFuelType(report.fuelType);
    var availability := MapAvailability(report.status);
    var at := report.createdAt.GetOr(now);
    MapFuelTypeShapes(report.fuelType);
    ImportFuelsIsReportAll(rows, stationId, availability, at, fuels);
    ContributeRoute.ReportAllFrame(rows, stationId, availability, at, fuels);
    FuelsReported(rows, stationId, availability, at, fuels);
  }

  /** Each fuel type of a mapped report holds the report afterwards. */
  lemma FuelsReported(rows: seq<StationStatus>, stationId: Id, availability: Availability, at: Millis,
                      fuels: seq<FuelType>)
    requires UniquePairs(rows)
    requires fuels == [Essence] || fuels == [Gasoil] || fuels == FUEL_TYPES
    ensures forall j :: 0 <= j < |fuels| ==>
      ContributeRoute.HoldsReport(ContributeRoute.ReportAll(rows, stationId, availability, at, fuels),
                                  stationId, fuels[j], availability, at)
  {
    if fuels == FUEL_TYPES {
      ContributeRoute.ReportBothEffect(rows, stationId, availability, at);
    } else {
      assert fuels[..0] == [];
      ContributeRoute.UpsertReports(rows, stationId, fuels[0], availability, at);
    }
  }

  lemma MapFuelTypeShapes(fuelType: string)
    ensures var fuels := MapFuelType(fuelType);
      fuels == [Essence] || fuels == [Gasoil] || fuels == FUEL_TYPES
  {
  }

  lemma ImportOneSkips(t: Tables, s: BkoStation, freshId: Id, writeOk: bool, now: Millis)
    ensures ImportOne(t, s, freshId, writeOk, now).1 == Skipped <==> IsSkipped(s)
  {
  }

  /** Every fetched station is counted exactly once, and the skipped ones are those failing the skip rule. */
  lemma {:induction false} ImportAllSummary(t: Tables, input: seq<BkoStation>, freshIds: seq<Id>,
                                            writeOks: seq<bool>, now: Millis)
    requires |freshIds| == |input| && |writeOks| == |input|
    ensures var c := ImportAll(t, input, freshIds, writeOks, now).1;
      c.imported + c.updated + c.skipped + c.errors == |input| && c.skipped == Count(input, IsSkipped)
  {
    if input != [] {
      var n := |input| - 1;
      ImportAllSummary(t, input[..n], freshIds[..n], writeOks[..n], now);
      var before := ImportAll(t, input[..n], freshIds[..n], writeOks[..n], now);
      var step := ImportOne(before.0, input[n], freshIds[n], writeOks[n], now);
      assert ImportAll(t, input, freshIds, writeOks, now).1 == Tally(before.1, step.1);
      ImportOneSkips(before.0, input[n], freshIds[n], writeOks[n], now);
      assert input == input[..n] + [input[n]];
      CountAppend(input[..n], input[n], IsSkipped);
    }
  }

  /** One station's step keeps at most one status row per pair. */
  lemma ImportOneKeepsUnique(t: Tables, s: BkoStation, freshId: Id, writeOk: bool, now: Millis)
    requires UniquePairs(t.statuses)
    ensures UniquePairs(ImportOne(t, s, freshId, writeOk, now).0.statuses)
  {
    if !IsSkipped(s) && writeOk && s.latestReport.Some? {
      ImportOneReport(t, s, freshId, now);
      ReportRecorded(t.statuses, WrittenId(t.stations, s, freshId), s.latestReport.value, now);
    }
  }

  /** `after` is `before` followed by anonymous PUBLIC contributions only. */
  predicate AppendsAnonymous(before: seq<Contribution>, after: seq<Contribution>) {
    |before| <= |after| && after[..|before|] == before &&
    forall j :: |before| <= j < |after| ==> after[j].sourceType == Public && after[j].userId.None?
  }

  lemma AppendsAnonymousTrans(a: seq<Contribution>, b: seq<Contribution>, c: seq<Contribution>)
    requires AppendsAnonymous(a, b) && AppendsAnonymous(b, c)
    ensures AppendsAnonymous(a, c)
  {
    assert c[..|a|] == c[..|b|][..|a|];
  }

  /** One station's step only appends anonymous PUBLIC contributions. */
  lemma ImportOneContributions(t: Tables, s: BkoStation, freshId: Id, writeOk: bool, now: Millis)
    ensures AppendsAnonymous(t.contributions, ImportOne(t, s, freshId, writeOk, now).0.contributions)
  {
    if !IsSkipped(s) && writeOk && s.latestReport.Some? {
      ImportOneReport(t, s, freshId, now);
      var r := ImportOne(t, s, freshId, writeOk, now).0;
      assert r.contributions[..|t.contributions|] == t.contributions;
    }
  }

  lemma {:induction false} ImportAllContributions(t: Tables, input: seq<BkoStation>, freshIds: seq<Id>,
                                                  writeOks: seq<bool>, now: Millis)
    requires |freshIds| == |input| && |writeOks| == |input|
    ensures AppendsAnonymous(t.contributions, ImportAll(t, input, freshIds, writeOks, now).0.contributions)
  {
    if input == [] {
      assert t.contributions[..|t.contributions|] == t.contributions;
    } else {
      var n := |input| - 1;
      ImportAllContributions(t, input[..n], freshIds[..n], writeOks[..n], now);
      var before := ImportAll(t, input[..n], freshIds[..n], writeOks[..n], now).0;
      ImportOneContributions(before, input[n], freshIds[n], writeOks[n], now);
      AppendsAnonymousTrans(t.contributions, before.contributions,
                            ImportAll(t, input, freshIds, writeOks, now).0.contributions);
    }
  }

  lemma {:induction false} ImportAllUnique(t: Tables, input: seq<BkoStation>, freshIds: seq<Id>,
                                           writeOks: seq<bool>, now: Millis)
    requires |freshIds| == |input| && |writeOks| == |input|
    requires UniquePairs(t.statuses)
    ensures UniquePairs(ImportAll(t, input, freshIds, writeOks, now).0.statuses)
  {
    if input != [] {
      var n := |input| - 1;
      ImportAllUnique(t, input[..n], freshIds[..n], writeOks[..n], now);
      var before := ImportAll(t, input[..n], freshIds[..n], writeOks[..n], now).0;
      ImportOneKeepsUnique(before, input[n], freshIds[n], writeOks[n], now);
    }
  }

  /**
   * Contributions are only appended, each one anonymous and PUBLIC, and the
   * import keeps at most one status row per (station, fuel type).
   */
  lemma ImportAllTables(t: Tables, input: seq<BkoStation>, freshIds: seq<Id>,
                        writeOks: seq<bool>, now: Millis)
    requires |freshIds| == |input| && |writeOks| == |input|
    requires UniquePairs(t.statuses)
    ensures var r := ImportAll(t, input, freshIds, writeOks, now).0;
      UniquePairs(r.statuses) &&
      |t.contributions| <= |r.contributions| && r.contributions[..|t.contributions|] == t.contributions &&
      forall j :: |t.contributions| <= j < |r.contributions| ==>
        r.contributions[j].sourceType == Public && r.contributions[j].userId.None?
  {
    ImportAllUnique(t, input, freshIds, writeOks, now);
    ImportAllContributions(t, input, freshIds, writeOks, now);
  }

  /** The brand loop: the first of `patterns` the name matches, capitalised, or null. */
  method MatchBrand(name: string, patterns: seq<string>) returns (brand: Option<string>)
    ensures brand == PatternBrand(name, patterns)
  {
    var i := 0;
    while i < |patterns|
      invariant 0 <= i <= |patterns|
      invariant forall j :: 0 <= j < i ==> !StationUtils.MatchesPattern(name, patterns[j])
    {
      var pattern := patterns[i];
      if StationUtils.MatchesPattern(name, pattern) {
        return Some(StationUtils.Capitalize(name[..|pattern|]));
      }
      i := i + 1;
    }
    return None;
  }

  /** The station update or insert, with the id of the row written. */
  method WriteStation(db: Database, s: BkoStation, freshId: Id) returns (stationId: Id, outcome: Outcome)
    requires !IsSkipped(s)
    modifies db
    ensures db.stations == WrittenStations(old(db.stations), s, freshId)
    ensures outcome == if ExistingStation(old(db.stations), s).Some? then Updated else Imported
    ensures stationId == WrittenId(old(db.stations), s, freshId)
    ensures db.statuses == old(db.statuses) && db.contributions == old(db.contributions)
    ensures db.alerts == old(db.alerts) && db.authUsers == old(db.authUsers) && db.profiles == old(db.profiles)
  {
    var name := Trim(s.name.value);
    var municipality := Trim(OrElse(s.commune, "Bamako"));
    var existing := SingleIndex(db.stations, SameSite(name, municipality));
    var brand := if s.brand.Some? && Trim(s.brand.value) != "" then Some(Trim(s.brand.value)) else None;
    if brand.None? {
      brand := MatchBrand(s.name.value, StationUtils.BRAND_PATTERNS);
    }
    var row := Station(freshId, name, brand, municipality, Neighborhood(s), s.latitude.value, s.longitude.value, true);
    assert row == StationRow(freshId, s);
    if existing.Some? {
      var k := existing.value;
      stationId := db.stations[k].id;
      db.stations := db.stations[k := row.(id := stationId)];
      outcome := Updated;
    } else {
      stationId := freshId;
      db.stations := db.stations + [row];
      outcome := Imported;
    }
  }

  /** The loop over the report's fuel types: one status write and one contribution each. */
  method RecordReport(db: Database, stationId: Id, report: Report, now: Millis)
    modifies db
    ensures var fuels := MapFuelType(report.fuelType);
      var availability := MapAvailability(report.status);
      var at := report.createdAt.GetOr(now);
      db.statuses == ImportFuels(old(db.statuses), stationId, availability, at, fuels) &&
      db.contributions == old(db.contributions) + Repeat(ReportContribution(stationId, availability, at), |fuels|)
    ensures db.stations == old(db.stations)
    ensures db.alerts == old(db.alerts) && db.authUsers == old(db.authUsers) && db.profiles == old(db.profiles)
  {
    var fuels := MapFuelType(report.fuelType);
    var availability := MapAvailability(report.status);
    var at := report.createdAt.GetOr(now);
    var contribution := ReportContribution(stationId, availability, at);
    ghost var statuses0 := db.statuses;
    ghost var contributions0 := db.contributions;
    for i := 0 to |fuels|
      invariant db.statuses == ImportFuels(statuses0, stationId, availability, at, fuels[..i])
      invariant db.contributions == contributions0 + Repeat(contribution, i)
      invariant db.stations == old(db.stations)
      invariant db.alerts == old(db.alerts) && db.authUsers == old(db.authUsers) && db.profiles == old(db.profiles)
    {
      var fuelType := fuels[i];
      ghost var before := db.statuses;
      assert fuels[..i + 1][..i] == fuels[..i];
      assert ImportFuels(statuses0, stationId, availability, at, fuels[..i + 1]) ==
             ImportedStatus(before, stationId, fuelType, availability, at);
      var existingStatus := SinglePairIndex(db.statuses, stationId, fuelType);
      if existingStatus.Some? {
        var k := existingStatus.value;
        db.statuses := db.statuses[k := db.statuses[k].(availability := availability,
                                                         lastUpdateSource := Public, updatedAt := at)];
      } else {
        db.statuses := db.statuses + [NewStatusRow(stationId, fuelType, availability, Public, at)];
      }
      assert db.statuses == ImportedStatus(before, stationId, fuelType, availability, at);
      db.contributions := db.contributions + [contribution];
      assert Repeat(contribution, i + 1) == Repeat(contribution, i) + [contribution];
    }
    assert fuels[..|fuels|] == fuels;
  }

  /** The body of the import loop for one fetched station. */
  method ImportStation(db: Database, s: BkoStation, freshId: Id, writeOk: bool, now: Millis)
    returns (outcome: Outcome)
    modifies db
    ensures var r := ImportOne(Tables(old(db.stations), old(db.statuses), old(db.contributions)),
                               s, freshId, writeOk, now);
      Tables(db.stations, db.statuses, db.contributions) == r.0 && outcome == r.1
    ensures db.alerts == old(db.alerts) && db.authUsers == old(db.authUsers) && db.profiles == old(db.profiles)
  {
    if OrElse(s.name, "") == "" || !Truthy(s.latitude) || !Truthy(s.longitude) {
      return Skipped;
    }
    if !writeOk {
      return Failed;
    }
    var stationId;
    stationId, outcome := WriteStation(db, s, freshId);
    if s.latestReport.Some? {
      RecordReport(db, stationId, s.latestReport.value, now);
    }
  }

  /**
   * `importStations` after the fetch: each fetched station in order, with the
   * four counters of the summary it prints.
   */
  method ImportAllStations(db: Database, input: seq<BkoStation>, freshIds: seq<Id>, writeOks: seq<bool>,
                           now: Millis)
    returns (imported: nat, updated: nat, skipped: nat, errors: nat)
    requires |freshIds| == |input| && |writeOks| == |input|
    modifies db
    ensures var r := ImportAll(Tables(old(db.stations), old(db.statuses), old(db.contributions)),
                               input, freshIds, writeOks, now);
      Tables(db.stations, db.statuses, db.contributions) == r.0 &&
      Summary(imported, updated, skipped, errors) == r.1
    ensures db.alerts == old(db.alerts) && db.authUsers == old(db.authUsers) && db.profiles == old(db.profiles)
    ensures old(db.Valid()) ==> db.Valid()
  {
    ghost var t0 := Tables(db.stations, db.statuses, db.contributions);
    imported, updated, skipped, errors := 0, 0, 0, 0;
    for i := 0 to |input|
      invariant var r := ImportAll(t0, input[..i], freshIds[..i], writeOks[..i], now);
        Tables(db.stations, db.statuses, db.contributions) == r.0 &&
        Summary(imported, updated, skipped, errors) == r.1
      invariant db.alerts == old(db.alerts) && db.authUsers == old(db.authUsers) && db.profiles == old(db.profiles)
    {
      assert input[..i + 1][..i] == input[..i];
      assert freshIds[..i + 1][..i] == freshIds[..i];
      assert writeOks[..i + 1][..i] == writeOks[..i];
      var outcome := ImportStation(db, input[i], freshIds[i], writeOks[i], now);
      match outcome
      case Imported => imported := imported + 1;
      case Updated => updated := updated + 1;
      case Skipped => skipped := skipped + 1;
      case Failed => errors := errors + 1;
    }
    assert input[..|input|] == input;
    assert freshIds[..|input|] == freshIds && writeOks[..|input|] == writeOks;
    if old(db.Valid()) {
      ImportAllTables(t0, input, freshIds, writeOks, now);
    }
  }
}
