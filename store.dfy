/**
 * The relational store as the core sees it: tables held in insertion order,
 * with a row identified by its position. Besides the tables, the two
 * invariants the core relies on: at most one status row per (station, fuel
 * type) and at most one OPEN alert per (station, alert type).
 */
module Store {
  import opened Wrappers
  import opened SeqUtil
  import opened Schema

  predicate OfPair(r: StationStatus, stationId: Id, fuelType: FuelType) {
    r.stationId == stationId && r.fuelType == fuelType
  }

  /** Number of status rows of one (station, fuel type). */
  function PairCount(rows: seq<StationStatus>, stationId: Id, fuelType: FuelType): nat {
    Count(rows, r => OfPair(r, stationId, fuelType))
  }

  ghost predicate UniquePairs(rows: seq<StationStatus>) {
    forall stationId, fuelType :: PairCount(rows, stationId, fuelType) <= 1
  }

  /** The row `order('updated_at', desc).limit(1)` returns for one (station, fuel type). */
  function NewestPairIndex(rows: seq<StationStatus>, stationId: Id, fuelType: FuelType): (r: Option<nat>)
    ensures r.Some? ==> r.value < |rows| && OfPair(rows[r.value], stationId, fuelType)
    ensures r.None? <==> PairCount(rows, stationId, fuelType) == 0
  {
    NewestIndex(rows, (r: StationStatus) => OfPair(r, stationId, fuelType), (r: StationStatus) => r.updatedAt)
  }

  /**
   * The row `maybeSingle()` returns for one (station, fuel type): a row only
   * when exactly one matches; with two or more the query reports an error
   * and yields no row.
   */
  function SinglePairIndex(rows: seq<StationStatus>, stationId: Id, fuelType: FuelType): (r: Option<nat>)
    ensures r.Some? <==> PairCount(rows, stationId, fuelType) == 1
    ensures r.Some? ==> r.value < |rows| && OfPair(rows[r.value], stationId, fuelType)
  {
    if PairCount(rows, stationId, fuelType) == 1 then NewestPairIndex(rows, stationId, fuelType) else None
  }

  /** Under the one-row-per-pair invariant both lookups find the same row. */
  lemma SingleIsNewest(rows: seq<StationStatus>, stationId: Id, fuelType: FuelType)
    requires UniquePairs(rows)
    ensures SinglePairIndex(rows, stationId, fuelType) == NewestPairIndex(rows, stationId, fuelType)
  {
    assert PairCount(rows, stationId, fuelType) <= 1;
  }

  /** Appending a row for a pair that has none keeps the invariant. */
  lemma UniqueAfterInsert(rows: seq<StationStatus>, row: StationStatus)
    requires UniquePairs(rows) && PairCount(rows, row.stationId, row.fuelType) == 0
    ensures UniquePairs(rows + [row])
  {
    var appended := rows + [row];
    forall stationId, fuelType ensures PairCount(appended, stationId, fuelType) <= 1 {
      CountAppend(rows, row, r => OfPair(r, stationId, fuelType));
      assert PairCount(rows, stationId, fuelType) <= 1;
    }
  }

  lemma PairCountAppend(rows: seq<StationStatus>, row: StationStatus, stationId: Id, fuelType: FuelType)
    ensures PairCount(rows + [row], stationId, fuelType) ==
            PairCount(rows, stationId, fuelType) + (if OfPair(row, stationId, fuelType) then 1 else 0)
  {
    CountAppend(rows, row, r => OfPair(r, stationId, fuelType));
  }

  /** Two distinct rows of one pair make its count at least two. */
  lemma TwoPairRows(rows: seq<StationStatus>, stationId: Id, fuelType: FuelType, i: nat, j: nat)
    requires i < |rows| && j < |rows| && i != j
    requires OfPair(rows[i], stationId, fuelType) && OfPair(rows[j], stationId, fuelType)
    ensures PairCount(rows, stationId, fuelType) >= 2
  {
    if i < j {
      CountAtLeastTwo(rows, r => OfPair(r, stationId, fuelType), i, j);
    } else {
      CountAtLeastTwo(rows, r => OfPair(r, stationId, fuelType), j, i);
    }
  }

  /** Rewriting a row in place without changing its pair keeps every pair's count. */
  lemma PairCountAfterUpdate(rows: seq<StationStatus>, i: nat, row: StationStatus, stationId: Id, fuelType: FuelType)
    requires i < |rows| && row.stationId == rows[i].stationId && row.fuelType == rows[i].fuelType
    ensures PairCount(rows[i := row], stationId, fuelType) == PairCount(rows, stationId, fuelType)
  {
    CountUpdate(rows, i, row, r => OfPair(r, stationId, fuelType));
  }

  lemma UniqueAfterUpdate(rows: seq<StationStatus>, i: nat, row: StationStatus)
    requires UniquePairs(rows)
    requires i < |rows| && row.stationId == rows[i].stationId && row.fuelType == rows[i].fuelType
    ensures UniquePairs(rows[i := row])
  {
    var updated := rows[i := row];
    forall stationId, fuelType ensures PairCount(updated, stationId, fuelType) <= 1 {
      PairCountAfterUpdate(rows, i, row, stationId, fuelType);
    }
  }

  /** A freshly inserted status row: the columns the insert does not name take their defaults. */
  function NewStatusRow(stationId: Id, fuelType: FuelType, availability: Availability,
                        source: SourceType, at: Millis): (r: StationStatus)
    ensures OfPair(r, stationId, fuelType) && r.availability == availability
    ensures r.lastUpdateSource == source && r.updatedAt == at
    ensures r.pumpsActive.None? && r.waitingTimeMin.None? && r.waitingTimeMax.None? && r.reliabilityScore == 0
  {
    StationStatus(stationId, fuelType, availability, None, None, None, 0, source, at)
  }

  function IsFuel(fuelType: FuelType): StationStatus -> bool {
    (r: StationStatus) => r.fuelType == fuelType
  }

  /** `rows.find(s => s.fuel_type === fuelType)`: the first row of the fuel type in the order given. */
  function FindFuel(fetched: seq<StationStatus>, fuelType: FuelType): (r: Option<StationStatus>)
    ensures r.Some? ==> r.value in fetched && r.value.fuelType == fuelType
    ensures r.None? <==> forall j :: 0 <= j < |fetched| ==> fetched[j].fuelType != fuelType
  {
    match FirstIndex(fetched, IsFuel(fuelType))
    case Some(k) => Some(fetched[k])
    case None => None
  }

  predicate IsOpenOf(a: Alert, stationId: Id, alertType: AlertType) {
    a.stationId == stationId && a.alertType == alertType && a.status == Open
  }

  /** Number of OPEN alerts of one type for one station. */
  function OpenCount(alerts: seq<Alert>, stationId: Id, alertType: AlertType): nat {
    Count(alerts, a => IsOpenOf(a, stationId, alertType))
  }

  ghost predicate AtMostOneOpen(alerts: seq<Alert>) {
    forall stationId, alertType :: OpenCount(alerts, stationId, alertType) <= 1
  }

  lemma OpenCountAppend(alerts: seq<Alert>, a: Alert, stationId: Id, alertType: AlertType)
    ensures OpenCount(alerts + [a], stationId, alertType) ==
            OpenCount(alerts, stationId, alertType) + (if IsOpenOf(a, stationId, alertType) then 1 else 0)
  {
    CountAppend(alerts, a, x => IsOpenOf(x, stationId, alertType));
  }

  class Database {
    var stations: seq<Station>
    var statuses: seq<StationStatus>
    var contributions: seq<Contribution>
    var alerts: seq<Alert>
    /** Accounts of the auth provider, by id. */
    var authUsers: seq<Id>
    var profiles: seq<UserProfile>

    ghost predicate Valid()
      reads this
    {
      UniquePairs(statuses) && AtMostOneOpen(alerts)
    }

    constructor ()
      ensures Valid()
      ensures stations == [] && statuses == [] && contributions == [] && alerts == []
      ensures authUsers == [] && profiles == []
    {
      stations, statuses, contributions, alerts := [], [], [], [];
      authUsers, profiles := [], [];
    }
  }
}
