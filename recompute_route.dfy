/**
 * The recompute route (src/app/api/recompute/route.ts): write the current
 * waiting-time estimate and reliability score onto every status row of a
 * station.
 */
module RecomputeRoute {
  import opened Wrappers
  import opened SeqUtil
  import opened Schema
  import opened Store
  import opened BusinessLogic

  datatype Response = Ok | BadRequest

  /** A row after the waiting-time update, if it is one of the station's. */
  function WaitingRow(r: StationStatus, stationId: Id, w: WaitingTime): StationStatus {
    if r.stationId == stationId then r.(waitingTimeMin := w.min, waitingTimeMax := w.max) else r
  }

  /** A row after the score update, if it is one of the station's. */
  function ScoreRow(r: StationStatus, stationId: Id, score: int): StationStatus {
    if r.stationId == stationId then r.(reliabilityScore := score) else r
  }

  function WithWaitingTime(rows: seq<StationStatus>, stationId: Id, w: WaitingTime): (r: seq<StationStatus>)
    ensures |r| == |rows| && forall k :: 0 <= k < |rows| ==> r[k] == WaitingRow(rows[k], stationId, w)
  {
    seq(|rows|, k requires 0 <= k < |rows| => WaitingRow(rows[k], stationId, w))
  }

  function WithScore(rows: seq<StationStatus>, stationId: Id, score: int): (r: seq<StationStatus>)
    ensures |r| == |rows| && forall k :: 0 <= k < |rows| ==> r[k] == ScoreRow(rows[k], stationId, score)
  {
    seq(|rows|, k requires 0 <= k < |rows| => ScoreRow(rows[k], stationId, score))
  }

  /** The status table after a recompute of the station at time `now`. */
  function Recomputed(rows: seq<StationStatus>, contributions: seq<Contribution>, stationId: Id,
                      now: Millis): seq<StationStatus>
  {
    var w := ComputeWaitingTime(contributions, rows, stationId);
    WithScore(WithWaitingTime(rows, stationId, w), stationId, ReliabilityScore(contributions, stationId, now))
  }

  /**
   * Every row of the station carries the estimate and the score; its other
   * columns and all rows of other stations are as they were.
   */
  lemma RecomputedRows(rows: seq<StationStatus>, contributions: seq<Contribution>, stationId: Id, now: Millis)
    ensures var r := Recomputed(rows, contributions, stationId, now);
      var w := ComputeWaitingTime(contributions, rows, stationId);
      var score := ReliabilityScore(contributions, stationId, now);
      |r| == |rows| &&
      forall k :: 0 <= k < |rows| ==>
        (rows[k].stationId == stationId ==>
           r[k].waitingTimeMin == w.min && r[k].waitingTimeMax == w.max && r[k].reliabilityScore == score &&
           r[k] == rows[k].(waitingTimeMin := w.min, waitingTimeMax := w.max, reliabilityScore := score)) &&
        (rows[k].stationId != stationId ==> r[k] == rows[k])
  {
  }

  /** A recompute does not move a row to another pair, so the one-row-per-pair invariant is kept. */
  lemma RecomputedKeepsUnique(rows: seq<StationStatus>, contributions: seq<Contribution>, stationId: Id,
                              now: Millis)
    requires UniquePairs(rows)
    ensures UniquePairs(Recomputed(rows, contributions, stationId, now))
  {
    var r := Recomputed(rows, contributions, stationId, now);
    RecomputedRows(rows, contributions, stationId, now);
    forall sid, ft ensures PairCount(r, sid, ft) <= 1 {
      CountFrame(r, x => OfPair(x, sid, ft), rows, x => OfPair(x, sid, ft));
      assert PairCount(rows, sid, ft) <= 1;
    }
  }

  /** The estimate does not depend on the columns a recompute writes. */
  lemma WaitingTimeIgnoresDerived(rows: seq<StationStatus>, rows': seq<StationStatus>,
                                  contributions: seq<Contribution>, stationId: Id)
    requires |rows| == |rows'|
    requires forall k :: 0 <= k < |rows| ==>
      rows'[k].stationId == rows[k].stationId && rows'[k].updatedAt == rows[k].updatedAt &&
      rows'[k].pumpsActive == rows[k].pumpsActive
    ensures ComputeWaitingTime(contributions, rows', stationId) == ComputeWaitingTime(contributions, rows, stationId)
  {
    NewestIndexFrame(rows, (r: StationStatus) => IsStatusOf(r, stationId), (r: StationStatus) => r.updatedAt,
                     rows', (r: StationStatus) => IsStatusOf(r, stationId), (r: StationStatus) => r.updatedAt);
    assert LatestStatusIndex(rows, stationId) == LatestStatusIndex(rows', stationId);
    assert EffectivePumps(rows, stationId) == EffectivePumps(rows', stationId);
  }

  /** With the clock and the contributions fixed, recomputing twice is recomputing once. */
  lemma RecomputeIdempotent(rows: seq<StationStatus>, contributions: seq<Contribution>, stationId: Id,
                            now: Millis)
    ensures var once := Recomputed(rows, contributions, stationId, now);
            Recomputed(once, contributions, stationId, now) == once
  {
    var once := Recomputed(rows, contributions, stationId, now);
    RecomputedRows(rows, contributions, stationId, now);
    WaitingTimeIgnoresDerived(rows, once, contributions, stationId);
    var twice := Recomputed(once, contributions, stationId, now);
    RecomputedRows(once, contributions, stationId, now);
    assert |twice| == |once|;
    forall k | 0 <= k < |once| ensures twice[k] == once[k] {
    }
  }

  /** The first update: the estimate onto every row of the station. */
  method WriteWaitingTime(db: Database, id: Id, waitingTime: WaitingTime)
    modifies db
    ensures db.statuses == WithWaitingTime(old(db.statuses), id, waitingTime)
    ensures db.stations == old(db.stations) && db.contributions == old(db.contributions)
    ensures db.alerts == old(db.alerts) && db.authUsers == old(db.authUsers) && db.profiles == old(db.profiles)
  {
    ghost var before := db.statuses;
    for k := 0 to |db.statuses|
      invariant |db.statuses| == |before|
      invariant forall m :: 0 <= m < k ==> db.statuses[m] == WaitingRow(before[m], id, waitingTime)
      invariant forall m :: k <= m < |before| ==> db.statuses[m] == before[m]
      invariant db.stations == old(db.stations) && db.contributions == old(db.contributions)
      invariant db.alerts == old(db.alerts) && db.authUsers == old(db.authUsers) && db.profiles == old(db.profiles)
    {
      if db.statuses[k].stationId == id {
        db.statuses := db.statuses[k := db.statuses[k].(waitingTimeMin := waitingTime.min,
                                                         waitingTimeMax := waitingTime.max)];
      }
    }
  }

  /** The second update: the score onto every row of the station. */
  method WriteScore(db: Database, id: Id, reliabilityScore: int)
    modifies db
    ensures db.statuses == WithScore(old(db.statuses), id, reliabilityScore)
    ensures db.stations == old(db.stations) && db.contributions == old(db.contributions)
    ensures db.alerts == old(db.alerts) && db.authUsers == old(db.authUsers) && db.profiles == old(db.profiles)
  {
    ghost var before := db.statuses;
    for k := 0 to |db.statuses|
      invariant |db.statuses| == |before|
      invariant forall m :: 0 <= m < k ==> db.statuses[m] == ScoreRow(before[m], id, reliabilityScore)
      invariant forall m :: k <= m < |before| ==> db.statuses[m] == before[m]
      invariant db.stations == old(db.stations) && db.contributions == old(db.contributions)
      invariant db.alerts == old(db.alerts) && db.authUsers == old(db.authUsers) && db.profiles == old(db.profiles)
    {
      if db.statuses[k].stationId == id {
        db.statuses := db.statuses[k := db.statuses[k].(reliabilityScore := reliabilityScore)];
      }
    }
  }

  /** `POST /api/recompute`. */
  method Post(db: Database, stationId: Option<string>, now: Millis) returns (response: Response)
    modifies db
    ensures stationId.None? || stationId.value == "" ==> response == BadRequest && db.statuses == old(db.statuses)
    ensures stationId.Some? && stationId.value != "" ==>
              response == Ok && db.statuses == Recomputed(old(db.statuses), db.contributions, stationId.value, now)
    ensures db.stations == old(db.stations) && db.contributions == old(db.contributions)
    ensures db.alerts == old(db.alerts) && db.authUsers == old(db.authUsers) && db.profiles == old(db.profiles)
    ensures old(db.Valid()) ==> db.Valid()
  {
    if stationId.None? || stationId.value == "" {
      return BadRequest;
    }
    var id := stationId.value;
    ghost var before := db.statuses;
    var waitingTime := ComputeWaitingTime(db.contributions, db.statuses, id);
    WriteWaitingTime(db, id, waitingTime);
    var reliabilityScore := ComputeReliabilityScore(db.contributions, id, now);
    WriteScore(db, id, reliabilityScore);
    if old(db.Valid()) {
      RecomputedKeepsUnique(before, db.contributions, id, now);
    }
    return Ok;
  }
}
