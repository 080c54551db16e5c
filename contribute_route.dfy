/**
 * The ingest route (src/app/api/contribute/route.ts): validate the body,
 * append one PUBLIC contribution and, when a fuel status is reported,
 * write it onto the station's ESSENCE and GASOIL status rows.
 */
module ContributeRoute {
  import opened Wrappers
  import opened Schema
  import opened Store
  import BusinessLogic

  /**
   * The request body. An absent field and a falsy one (the empty string)
   * are both `None`; a station id is kept as sent so that "" can be refused.
   */
  datatype Body = Body(stationId: Option<string>, queueCategory: Option<QueueCategory>,
                       fuelStatus: Option<Availability>)

  datatype Response = Ok | BadRequest | ServerError

  /** The row a report leaves for its (station, fuel type). */
  predicate IsReportedRow(r: StationStatus, stationId: Id, fuelType: FuelType, availability: Availability,
                          now: Millis) {
    OfPair(r, stationId, fuelType) && r.availability == availability &&
    r.lastUpdateSource == Public && r.updatedAt == now
  }

  /** The columns the route never writes on an existing row. */
  predicate KeepsDerived(r: StationStatus, was: StationStatus) {
    r.pumpsActive == was.pumpsActive && r.waitingTimeMin == was.waitingTimeMin &&
    r.waitingTimeMax == was.waitingTimeMax && r.reliabilityScore == was.reliabilityScore
  }

  /** Where a report for the pair lands: its newest row, or a new row at the end. */
  function UpsertAt(rows: seq<StationStatus>, stationId: Id, fuelType: FuelType): (k: nat)
    ensures k <= |rows|
    ensures k < |rows| <==> PairCount(rows, stationId, fuelType) > 0
    ensures k < |rows| ==> OfPair(rows[k], stationId, fuelType)
  {
    var existing := NewestPairIndex(rows, stationId, fuelType);
    if existing.Some? then existing.value else |rows|
  }

  /**
   * The update-or-insert for one fuel type: the newest row of the pair gets
   * the reported availability, source PUBLIC and a fresh timestamp; with no
   * row, one is inserted with the column defaults. No other row changes.
   */
  function Upsert(rows: seq<StationStatus>, stationId: Id, fuelType: FuelType, availability: Availability,
                  now: Millis): (r: seq<StationStatus>)
    ensures |r| == |rows| + (if PairCount(rows, stationId, fuelType) == 0 then 1 else 0)
    ensures var k := UpsertAt(rows, stationId, fuelType);
      IsReportedRow(r[k], stationId, fuelType, availability, now) &&
      (k < |rows| ==> KeepsDerived(r[k], rows[k])) &&
      (k == |rows| ==> r[k] == NewStatusRow(stationId, fuelType, availability, Public, now))
    ensures forall j :: 0 <= j < |rows| && j != UpsertAt(rows, stationId, fuelType) ==> r[j] == rows[j]
  {
    var k := UpsertAt(rows, stationId, fuelType);
    if k < |rows| then
      rows[k := rows[k].(availability := availability, lastUpdateSource := Public, updatedAt := now)]
    else
      rows + [NewStatusRow(stationId, fuelType, availability, Public, now)]
  }

  /** Only rows of the reported pair change, and no pair gains a second row. */
  lemma UpsertKeepsUnique(rows: seq<StationStatus>, stationId: Id, fuelType: FuelType,
                          availability: Availability, now: Millis)
    requires UniquePairs(rows)
    ensures var r := Upsert(rows, stationId, fuelType, availability, now);
      UniquePairs(r) && PairCount(r, stationId, fuelType) == 1
  {
    var k := UpsertAt(rows, stationId, fuelType);
    var r := Upsert(rows, stationId, fuelType, availability, now);
    if k < |rows| {
      UniqueAfterUpdate(rows, k, r[k]);
      PairCountAfterUpdate(rows, k, r[k], stationId, fuelType);
      assert PairCount(rows, stationId, fuelType) <= 1;
    } else {
      var row := NewStatusRow(stationId, fuelType, availability, Public, now);
      UniqueAfterInsert(rows, row);
      PairCountAppend(rows, row, stationId, fuelType);
    }
  }

  /** The status table after reporting `availability` for each of `fuels` in turn. */
  function ReportAll(rows: seq<StationStatus>, stationId: Id, availability: Availability, now: Millis,
                     fuels: seq<FuelType>): seq<StationStatus>
  {
    if fuels == [] then rows
    else Upsert(ReportAll(rows, stationId, availability, now, fuels[..|fuels| - 1]),
                stationId, fuels[|fuels| - 1], availability, now)
  }

  /** The columns of a row that say which (station, fuel type) it belongs to. */
  predicate SamePair(a: StationStatus, b: StationStatus) {
    a.stationId == b.stationId && a.fuelType == b.fuelType
  }

  /**
   * Reporting to the station touches only its own rows: rows of other
   * stations stay in place and unchanged, and added rows are the station's.
   */
  lemma {:induction false} ReportAllFrame(rows: seq<StationStatus>, stationId: Id, availability: Availability,
                                          now: Millis, fuels: seq<FuelType>)
    ensures var r := ReportAll(rows, stationId, availability, now, fuels);
      |rows| <= |r| &&
      (forall j :: 0 <= j < |rows| ==> SamePair(r[j], rows[j])) &&
      (forall j :: 0 <= j < |rows| && rows[j].stationId != stationId ==> r[j] == rows[j]) &&
      (forall j :: |rows| <= j < |r| ==> r[j].stationId == stationId)
  {
    if fuels != [] {
      var n := |fuels| - 1;
      ReportAllFrame(rows, stationId, availability, now, fuels[..n]);
      var mid := ReportAll(rows, stationId, availability, now, fuels[..n]);
      var r := Upsert(mid, stationId, fuels[n], availability, now);
      var k := UpsertAt(mid, stationId, fuels[n]);
      assert r == ReportAll(rows, stationId, availability, now, fuels);
      forall j | 0 <= j < |rows| ensures SamePair(r[j], rows[j]) {
        assert SamePair(mid[j], rows[j]);
      }
    }
  }

  /** The pair has exactly one row, and it carries the report. */
  predicate HoldsReport(rows: seq<StationStatus>, stationId: Id, fuelType: FuelType,
                        availability: Availability, now: Millis) {
    var at := SinglePairIndex(rows, stationId, fuelType);
    at.Some? && IsReportedRow(rows[at.value], stationId, fuelType, availability, now)
  }

  /** After an upsert the pair's only row is the reported one. */
  lemma UpsertReports(rows: seq<StationStatus>, stationId: Id, fuelType: FuelType,
                      availability: Availability, now: Millis)
    requires UniquePairs(rows)
    ensures var r := Upsert(rows, stationId, fuelType, availability, now);
      HoldsReport(r, stationId, fuelType, availability, now)
  {
    var r := Upsert(rows, stationId, fuelType, availability, now);
    var k := UpsertAt(rows, stationId, fuelType);
    UpsertKeepsUnique(rows, stationId, fuelType, availability, now);
    var at := SinglePairIndex(r, stationId, fuelType);
    if at.value != k {
      TwoPairRows(r, stationId, fuelType, at.value, k);
      assert false;
    }
  }

  /** An upsert for one fuel type leaves the reported row of another fuel type as it was. */
  lemma UpsertKeepsOtherReport(rows: seq<StationStatus>, stationId: Id, fuelType: FuelType, other: FuelType,
                               availability: Availability, now: Millis)
    requires UniquePairs(rows) && other != fuelType
    requires HoldsReport(rows, stationId, other, availability, now)
    ensures var r := Upsert(rows, stationId, fuelType, availability, now);
      HoldsReport(r, stationId, other, availability, now)
  {
    var r := Upsert(rows, stationId, fuelType, availability, now);
    var k := UpsertAt(rows, stationId, fuelType);
    UpsertKeepsUnique(rows, stationId, fuelType, availability, now);
    var before := SinglePairIndex(rows, stationId, other).value;
    assert before != k;
    assert r[before] == rows[before];
    assert PairCount(r, stationId, other) <= 1;
    assert PairCount(r, stationId, other) != 0;
    var at := SinglePairIndex(r, stationId, other);
    if at.value != before {
      TwoPairRows(r, stationId, other, at.value, before);
      assert false;
    }
  }

  /**
   * With at most one row per pair to begin with, reporting a fuel status to a
   * station leaves both its ESSENCE and GASOIL pairs with exactly one row,
   * carrying the report, and keeps the invariant.
   */
  lemma ReportBothEffect(rows: seq<StationStatus>, stationId: Id, availability: Availability, now: Millis)
    requires UniquePairs(rows)
    ensures var r := ReportAll(rows, stationId, availability, now, FUEL_TYPES);
      UniquePairs(r) &&
      HoldsReport(r, stationId, Essence, availability, now) && HoldsReport(r, stationId, Gasoil, availability, now)
  {
    assert FUEL_TYPES[..1] == [Essence] && [Essence][..0] == [];
    var mid := Upsert(rows, stationId, Essence, availability, now);
    assert ReportAll(rows, stationId, availability, now, [Essence]) == mid;
    UpsertKeepsUnique(rows, stationId, Essence, availability, now);
    UpsertReports(rows, stationId, Essence, availability, now);
    UpsertKeepsUnique(mid, stationId, Gasoil, availability, now);
    UpsertReports(mid, stationId, Gasoil, availability, now);
    UpsertKeepsOtherReport(mid, stationId, Gasoil, Essence, availability, now);
  }

  /**
   * The per-fuel loop of the route: for ESSENCE then GASOIL, the newest row of
   * the pair takes the reported status, or a row is inserted when there is none.
   * The source type written is PUBLIC, the only one the route ever computes.
   */
  method ReportFuelStatus(db: Database, stationId: Id, fuelStatus: Availability, now: Millis)
    modifies db
    ensures db.statuses == ReportAll(old(db.statuses), stationId, fuelStatus, now, FUEL_TYPES)
    ensures db.stations == old(db.stations) && db.alerts == old(db.alerts) && db.contributions == old(db.contributions)
    ensures db.authUsers == old(db.authUsers) && db.profiles == old(db.profiles)
  {
    ghost var before := db.statuses;
    for i := 0 to |FUEL_TYPES|
      invariant db.statuses == ReportAll(before, stationId, fuelStatus, now, FUEL_TYPES[..i])
      invariant db.stations == old(db.stations) && db.alerts == old(db.alerts) && db.contributions == old(db.contributions)
      invariant db.authUsers == old(db.authUsers) && db.profiles == old(db.profiles)
    {
      var fuelType := FUEL_TYPES[i];
      assert FUEL_TYPES[..i + 1][..i] == FUEL_TYPES[..i];
      ghost var next := Upsert(db.statuses, stationId, fuelType, fuelStatus, now);
      assert ReportAll(before, stationId, fuelStatus, now, FUEL_TYPES[..i + 1]) == next;
      var existing := NewestPairIndex(db.statuses, stationId, fuelType);
      if existing.Some? {
        var k := existing.value;
        db.statuses := db.statuses[k := db.statuses[k].(availability := fuelStatus,
                                                         lastUpdateSource := Public, updatedAt := now)];
      } else {
        db.statuses := db.statuses + [NewStatusRow(stationId, fuelType, fuelStatus, Public, now)];
      }
      assert db.statuses == next;
    }
    assert FUEL_TYPES[..|FUEL_TYPES|] == FUEL_TYPES;
  }

  /** `POST /api/contribute`. `userProfileId` is the caller's profile id, if signed in and found; `insertAccepted` says whether the database accepts the contribution row. */
  method Post(db: Database, body: Body, userProfileId: Option<Id>, insertAccepted: bool, now: Millis)
    returns (response: Response)
    modifies db
    ensures body.stationId.None? || body.stationId.value == "" ==>
              response == BadRequest && db.contributions == old(db.contributions) && db.statuses == old(db.statuses)
    ensures body.stationId.Some? && body.stationId.value != "" && !insertAccepted ==>
              response == ServerError && db.contributions == old(db.contributions) && db.statuses == old(db.statuses)
    ensures body.stationId.Some? && body.stationId.value != "" && insertAccepted ==>
              response == Ok &&
              db.contributions == old(db.contributions) +
                [Contribution(body.stationId.value, NonEmpty(userProfileId), Public,
                              body.queueCategory, body.fuelStatus, now)] &&
              db.statuses == (if body.fuelStatus.Some?
                              then ReportAll(old(db.statuses), body.stationId.value, body.fuelStatus.value, now, FUEL_TYPES)
                              else old(db.statuses))
    ensures db.stations == old(db.stations) && db.alerts == old(db.alerts)
    ensures db.authUsers == old(db.authUsers) && db.profiles == old(db.profiles)
    ensures old(db.Valid()) ==> db.Valid()
  {
    if body.stationId.None? || body.stationId.value == "" {
      return BadRequest;
    }
    var stationId := body.stationId.value;
    var profileId := NonEmpty(userProfileId);
    var sourceType := if profileId.Some? then Public else Public;
    if !insertAccepted {
      return ServerError;
    }
    db.contributions := db.contributions +
      [Contribution(stationId, profileId, sourceType, body.queueCategory, body.fuelStatus, now)];
    if body.fuelStatus.Some? {
      var fuelStatus := body.fuelStatus.value;
      ghost var before := db.statuses;
      ReportFuelStatus(db, stationId, fuelStatus, now);
      // Both estimates are computed and then dropped: nothing stores them.
      var _ := BusinessLogic.ComputeWaitingTime(db.contributions, db.statuses, stationId);
      var _ := BusinessLogic.ComputeReliabilityScore(db.contributions, stationId, now);
      if old(db.Valid()) {
        ReportBothEffect(before, stationId, fuelStatus, now);
      }
    }
    return Ok;
  }
}
