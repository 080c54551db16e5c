/**
 * The contribution-aggregation engine (src/lib/business-logic.ts): the
 * waiting-time estimate, the reliability score and the alert sweep, each
 * over the tables of a `Database`, with the current time as a parameter.
 */
module BusinessLogic {
  import opened Wrappers
  import opened SeqUtil
  import opened Schema
  import opened Store

  function Min(a: int, b: int): int { if a <= b then a else b }

  // ---------------------------------------------------------------------
  // Waiting time
  // ---------------------------------------------------------------------

  const AVG_MINUTES_PER_VEHICLE: int := 3

  datatype WaitingTime = WaitingTime(min: Option<int>, max: Option<int>)

  /** Vehicles assumed to be queueing for a category, fewest and most. */
  function VehicleRange(q: QueueCategory): (r: (int, int))
    ensures 0 <= r.0 < r.1 <= 50
  {
    match q
    case Q0To10 => (0, 3)
    case Q10To30 => (3, 10)
    case Q30To60 => (10, 20)
    case Q60Plus => (20, 50)
  }

  /** Minutes to serve `vehicles` at `pumps` pumps: `floor(vehicles / pumps * 3)`. */
  function Minutes(vehicles: int, pumps: int): int
    requires pumps != 0
  {
    ((vehicles as real / pumps as real) * AVG_MINUTES_PER_VEHICLE as real).Floor
  }

  /** With a positive pump count the estimate is plain integer division. */
  lemma MinutesIsQuotient(vehicles: int, pumps: int)
    requires pumps >= 1
    ensures Minutes(vehicles, pumps) == (vehicles * AVG_MINUTES_PER_VEHICLE) / pumps
  {
    var n := vehicles * AVG_MINUTES_PER_VEHICLE;
    var q, r := n / pumps, n % pumps;
    assert n == q * pumps + r && 0 <= r < pumps;
    var x := (vehicles as real / pumps as real) * AVG_MINUTES_PER_VEHICLE as real;
    assert x == n as real / pumps as real;
    assert n as real == q as real * pumps as real + r as real;
    assert x == q as real + r as real / pumps as real;
    assert 0.0 <= r as real / pumps as real < 1.0;
  }

  /** More vehicles never take less time. */
  lemma MinutesMonotone(v1: int, v2: int, pumps: int)
    requires pumps >= 1 && v1 <= v2
    ensures Minutes(v1, pumps) <= Minutes(v2, pumps)
  {
    var x1 := (v1 as real / pumps as real) * AVG_MINUTES_PER_VEHICLE as real;
    var x2 := (v2 as real / pumps as real) * AVG_MINUTES_PER_VEHICLE as real;
    assert x2 - x1 == ((v2 - v1) as real / pumps as real) * AVG_MINUTES_PER_VEHICLE as real;
    assert x1 <= x2;
  }

  predicate IsStatusOf(r: StationStatus, stationId: Id) {
    r.stationId == stationId
  }

  /** The station's most recently updated status row, whatever its fuel type. */
  function LatestStatusIndex(statuses: seq<StationStatus>, stationId: Id): (r: Option<nat>)
    ensures r.Some? ==> r.value < |statuses| && statuses[r.value].stationId == stationId
    ensures r.Some? ==> forall j :: 0 <= j < |statuses| && statuses[j].stationId == stationId ==>
                                    statuses[j].updatedAt <= statuses[r.value].updatedAt
    ensures r.None? <==> forall j :: 0 <= j < |statuses| ==> statuses[j].stationId != stationId
  {
    NewestIndex(statuses, (r: StationStatus) => IsStatusOf(r, stationId), (r: StationStatus) => r.updatedAt)
  }

  /** `status?.pumps_active || 1`: a missing row, a null count and a zero count all mean one pump. */
  function EffectivePumps(statuses: seq<StationStatus>, stationId: Id): (p: int)
    ensures p != 0
    ensures LatestStatusIndex(statuses, stationId).None? ==> p == 1
    ensures LatestStatusIndex(statuses, stationId).Some? ==>
      var pumps := statuses[LatestStatusIndex(statuses, stationId).value].pumpsActive;
      p == (if pumps.None? || pumps.value == 0 then 1 else pumps.value)
  {
    var latest := LatestStatusIndex(statuses, stationId);
    if latest.None? then 1
    else
      var pumps := statuses[latest.value].pumpsActive;
      if pumps.None? || pumps.value == 0 then 1 else pumps.value
  }

  predicate HasQueue(c: Contribution, stationId: Id) {
    c.stationId == stationId && c.queueCategory.Some?
  }

  /** The newest contribution of the station that reports a queue. */
  function NewestQueueIndex(contributions: seq<Contribution>, stationId: Id): (r: Option<nat>)
    ensures r.Some? ==> r.value < |contributions| && HasQueue(contributions[r.value], stationId)
    ensures r.Some? ==> forall j :: 0 <= j < |contributions| && HasQueue(contributions[j], stationId) ==>
                                    contributions[j].createdAt <= contributions[r.value].createdAt
    ensures r.None? <==> forall j :: 0 <= j < |contributions| ==> !HasQueue(contributions[j], stationId)
  {
    NewestIndex(contributions, (c: Contribution) => HasQueue(c, stationId), (c: Contribution) => c.createdAt)
  }

  /** The estimate a queued contribution gives at the station's effective pump count. */
  function EstimateFor(c: Contribution, statuses: seq<StationStatus>, stationId: Id): WaitingTime
    requires c.queueCategory.Some?
  {
    var range := VehicleRange(c.queueCategory.value);
    var pumps := EffectivePumps(statuses, stationId);
    WaitingTime(Some(Minutes(range.0, pumps)), Some(Minutes(range.1, pumps)))
  }

  /** `computeWaitingTime`: the range for the newest reported queue category. */
  function ComputeWaitingTime(contributions: seq<Contribution>, statuses: seq<StationStatus>,
                              stationId: Id): (w: WaitingTime)
    ensures w.min.Some? <==> w.max.Some?
    ensures w.min.None? <==> forall j :: 0 <= j < |contributions| ==> !HasQueue(contributions[j], stationId)
  {
    var newest := NewestQueueIndex(contributions, stationId);
    if newest.None? then WaitingTime(None, None)
    else EstimateFor(contributions[newest.value], statuses, stationId)
  }

  /** The estimate comes from a newest queued contribution, and only from it. */
  lemma WaitingTimeUsesNewest(contributions: seq<Contribution>, statuses: seq<StationStatus>, stationId: Id)
    requires exists j :: 0 <= j < |contributions| && HasQueue(contributions[j], stationId)
    ensures exists i :: (0 <= i < |contributions| && HasQueue(contributions[i], stationId) &&
      (forall j :: 0 <= j < |contributions| && HasQueue(contributions[j], stationId) ==>
                   contributions[j].createdAt <= contributions[i].createdAt) &&
      ComputeWaitingTime(contributions, statuses, stationId) == EstimateFor(contributions[i], statuses, stationId))
  {
    var newest := NewestQueueIndex(contributions, stationId);
    assert newest.Some?;
    var i := newest.value;
    assert HasQueue(contributions[i], stationId);
  }

  /** With at least one pump, the estimate is a non-empty range of non-negative minutes. */
  lemma WaitingTimeOrdered(contributions: seq<Contribution>, statuses: seq<StationStatus>, stationId: Id)
    requires EffectivePumps(statuses, stationId) >= 1
    ensures var w := ComputeWaitingTime(contributions, statuses, stationId);
            w.min.Some? ==> 0 <= w.min.value <= w.max.value
  {
    var newest := NewestQueueIndex(contributions, stationId);
    if newest.Some? {
      var range := VehicleRange(contributions[newest.value].queueCategory.value);
      var pumps := EffectivePumps(statuses, stationId);
      MinutesMonotone(0, range.0, pumps);
      MinutesMonotone(range.0, range.1, pumps);
      assert Minutes(0, pumps) == 0 by { MinutesIsQuotient(0, pumps); }
    }
  }

  /** A 10-30 queue at a station with two pumps waits 4 to 15 minutes. */
  lemma WaitingTimeExample(stationId: Id, c: Contribution, s: StationStatus)
    requires c.stationId == stationId && c.queueCategory == Some(Q10To30)
    requires s.stationId == stationId && s.pumpsActive == Some(2)
    ensures ComputeWaitingTime([c], [s], stationId) == WaitingTime(Some(4), Some(15))
  {
    assert NewestQueueIndex([c], stationId) == Some(0);
    assert LatestStatusIndex([s], stationId) == Some(0);
    MinutesIsQuotient(3, 2);
    MinutesIsQuotient(10, 2);
  }

  // ---------------------------------------------------------------------
  // Reliability score
  // ---------------------------------------------------------------------

  const SCORE_WINDOW_MS: int := 2 * HOUR_MS
  const CONTRADICTION_WINDOW_MS: int := 30 * MINUTE_MS
  const STALE_AFTER_MS: int := HOUR_MS
  const SCORED_CONTRIBUTIONS: int := 10

  /** OFFICIAL 10, TRUSTED 5, PUBLIC 1. */
  function SourceWeight(s: SourceType): (w: real)
    ensures 1.0 <= w <= 10.0
    ensures w == 10.0 <==> s == Official
  {
    match s
    case Official => 10.0
    case Trusted => 5.0
    case Public => 1.0
  }

  /** `Math.max(0, 1 - age / 2h)`: one for a report made now, falling linearly to zero at two hours. */
  function RecencyFactor(age: int): (f: real)
    ensures 0.0 <= f
    ensures age >= 0 ==> f <= 1.0
    ensures age == 0 ==> f == 1.0
    ensures age >= SCORE_WINDOW_MS ==> f == 0.0
  {
    var x := 1.0 - age as real / SCORE_WINDOW_MS as real;
    if x > 0.0 then x else 0.0
  }

  /** What one contribution adds to the score. */
  function Term(c: Contribution, now: Millis): (t: real)
    ensures 0.0 <= t
    ensures c.createdAt <= now ==> t <= SourceWeight(c.sourceType)
  {
    SourceWeight(c.sourceType) * RecencyFactor(now - c.createdAt)
  }

  /** The sum of the terms of `s`. */
  function BaseScore(s: seq<Contribution>, now: Millis): (r: real)
    ensures 0.0 <= r
  {
    if s == [] then 0.0
    else BaseScore(s[..|s| - 1], now) + Term(s[|s| - 1], now)
  }

  /** `Math.round`: the nearest integer, halves rounded up. */
  function Round(x: real): (r: int)
    ensures r as real - 0.5 <= x < r as real + 0.5
  {
    (x + 0.5).Floor
  }

  predicate InScoreWindow(c: Contribution, stationId: Id, now: Millis) {
    c.stationId == stationId && c.createdAt >= now - SCORE_WINDOW_MS
  }

  function InScoreWindowOf(stationId: Id, now: Millis): Contribution -> bool {
    (c: Contribution) => InScoreWindow(c, stationId, now)
  }

  function NewestFirstKey(c: Contribution): real {
    -(c.createdAt as real)
  }

  /** The station's contributions of the last two hours, newest first, ties in table order. */
  function ScoreWindow(contributions: seq<Contribution>, stationId: Id, now: Millis): (w: seq<Contribution>)
    ensures forall i :: 0 <= i < |w| ==> InScoreWindow(w[i], stationId, now)
    ensures forall i, j :: 0 <= i < j < |w| ==> w[j].createdAt <= w[i].createdAt
    ensures w == [] <==> forall i :: 0 <= i < |contributions| ==> !InScoreWindow(contributions[i], stationId, now)
  {
    var inWindow := Filter(contributions, InScoreWindowOf(stationId, now));
    FilterEmptyIff(contributions, InScoreWindowOf(stationId, now));
    var w := SortBy(inWindow, NewestFirstKey);
    forall i | 0 <= i < |w| ensures InScoreWindow(w[i], stationId, now) {
      assert w[i] in multiset(w);
      assert w[i] in inWindow;
    }
    assert forall i, j :: 0 <= i < j < |w| ==> NewestFirstKey(w[i]) <= NewestFirstKey(w[j]);
    w
  }

  /** The window holds exactly the station's contributions of the last two hours. */
  lemma ScoreWindowMembers(contributions: seq<Contribution>, stationId: Id, now: Millis)
    ensures forall c :: c in ScoreWindow(contributions, stationId, now) <==>
                        c in contributions && InScoreWindow(c, stationId, now)
  {
    FilterMembers(contributions, InScoreWindowOf(stationId, now));
    SortByMembers(Filter(contributions, InScoreWindowOf(stationId, now)), NewestFirstKey);
  }

  /** The reported fuel statuses of `cs`, nulls dropped, in order. */
  function FuelStatuses(cs: seq<Contribution>): (r: seq<Availability>)
    ensures |r| <= |cs|
  {
    if cs == [] then []
    else
      match cs[0].fuelStatus
      case Some(a) => [a] + FuelStatuses(cs[1..])
      case None => FuelStatuses(cs[1..])
  }

  lemma {:induction false} FuelStatusesMembers(cs: seq<Contribution>)
    ensures forall a :: a in FuelStatuses(cs) <==> exists i :: 0 <= i < |cs| && cs[i].fuelStatus == Some(a)
  {
    if cs != [] {
      FuelStatusesMembers(cs[1..]);
      assert forall i :: 1 <= i < |cs| ==> cs[i] == cs[1..][i - 1];
    }
  }

  /** `new Set(statuses).size > 1`. */
  predicate Disagree(statuses: seq<Availability>) {
    |set a | a in statuses| > 1
  }

  lemma DisagreeIff(statuses: seq<Availability>)
    ensures Disagree(statuses) <==>
            exists i, j :: 0 <= i < |statuses| && 0 <= j < |statuses| && statuses[i] != statuses[j]
  {
    var values := set a | a in statuses;
    if Disagree(statuses) {
      var a :| a in values;
      assert |values - {a}| == |values| - 1;
      var b :| b in values - {a};
      var i :| 0 <= i < |statuses| && statuses[i] == a;
      var j :| 0 <= j < |statuses| && statuses[j] == b;
      assert statuses[i] != statuses[j];
    }
    if exists i, j :: 0 <= i < |statuses| && 0 <= j < |statuses| && statuses[i] != statuses[j] {
      var i, j :| 0 <= i < |statuses| && 0 <= j < |statuses| && statuses[i] != statuses[j];
      assert statuses[j] in values - {statuses[i]};
      assert |values - {statuses[i]}| == |values| - 1;
    }
  }

  /** Two reports that both name a fuel status, and not the same one. */
  predicate Differ(a: Contribution, b: Contribution) {
    a.fuelStatus.Some? && b.fuelStatus.Some? && a.fuelStatus != b.fuelStatus
  }

  lemma DisagreeIffDiffer(cs: seq<Contribution>)
    ensures Disagree(FuelStatuses(cs)) <==>
            exists i, j :: 0 <= i < |cs| && 0 <= j < |cs| && Differ(cs[i], cs[j])
  {
    var statuses := FuelStatuses(cs);
    FuelStatusesMembers(cs);
    DisagreeIff(statuses);
    if Disagree(statuses) {
      var i, j :| 0 <= i < |statuses| && 0 <= j < |statuses| && statuses[i] != statuses[j];
      assert statuses[i] in statuses && statuses[j] in statuses;
      var k :| 0 <= k < |cs| && cs[k].fuelStatus == Some(statuses[i]);
      var l :| 0 <= l < |cs| && cs[l].fuelStatus == Some(statuses[j]);
      assert Differ(cs[k], cs[l]);
    }
    if exists i, j :: 0 <= i < |cs| && 0 <= j < |cs| && Differ(cs[i], cs[j]) {
      var i, j :| 0 <= i < |cs| && 0 <= j < |cs| && Differ(cs[i], cs[j]);
      var a, b := cs[i].fuelStatus.value, cs[j].fuelStatus.value;
      assert a in statuses && b in statuses;
      var p :| 0 <= p < |statuses| && statuses[p] == a;
      var q :| 0 <= q < |statuses| && statuses[q] == b;
      assert statuses[p] != statuses[q];
    }
  }

  /** Two differing reports among those kept by a filter are two differing reports satisfying it. */
  lemma DifferInFilter(cs: seq<Contribution>, p: Contribution -> bool)
    ensures (exists i, j :: 0 <= i < |Filter(cs, p)| && 0 <= j < |Filter(cs, p)| &&
                            Differ(Filter(cs, p)[i], Filter(cs, p)[j])) <==>
            (exists i, j :: 0 <= i < |cs| && 0 <= j < |cs| && p(cs[i]) && p(cs[j]) && Differ(cs[i], cs[j]))
  {
    var kept := Filter(cs, p);
    if exists i, j :: 0 <= i < |kept| && 0 <= j < |kept| && Differ(kept[i], kept[j]) {
      var i, j :| 0 <= i < |kept| && 0 <= j < |kept| && Differ(kept[i], kept[j]);
      var k := KeptFrom(cs, p, i);
      var l := KeptFrom(cs, p, j);
      assert p(cs[k]) && p(cs[l]) && Differ(cs[k], cs[l]);
    }
    if exists i, j :: 0 <= i < |cs| && 0 <= j < |cs| && p(cs[i]) && p(cs[j]) && Differ(cs[i], cs[j]) {
      var i, j :| 0 <= i < |cs| && 0 <= j < |cs| && p(cs[i]) && p(cs[j]) && Differ(cs[i], cs[j]);
      var k := KeptAt(cs, p, i);
      var l := KeptAt(cs, p, j);
      assert Differ(kept[k], kept[l]);
    }
  }

  /** Where a kept element came from. */
  lemma KeptFrom(cs: seq<Contribution>, p: Contribution -> bool, i: nat) returns (k: nat)
    requires i < |Filter(cs, p)|
    ensures k < |cs| && cs[k] == Filter(cs, p)[i] && p(cs[k])
  {
    FilterMembers(cs, p);
    assert Filter(cs, p)[i] in Filter(cs, p);
    k :| 0 <= k < |cs| && cs[k] == Filter(cs, p)[i];
  }

  /** Where an element satisfying the filter was kept. */
  lemma KeptAt(cs: seq<Contribution>, p: Contribution -> bool, i: nat) returns (k: nat)
    requires i < |cs| && p(cs[i])
    ensures k < |Filter(cs, p)| && Filter(cs, p)[k] == cs[i]
  {
    FilterMembers(cs, p);
    assert cs[i] in cs;
    k :| 0 <= k < |Filter(cs, p)| && Filter(cs, p)[k] == cs[i];
  }

  predicate IsRecent(c: Contribution, now: Millis) {
    now - c.createdAt < CONTRADICTION_WINDOW_MS
  }

  function IsRecentAt(now: Millis): Contribution -> bool {
    (c: Contribution) => IsRecent(c, now)
  }

  /** Reports of the window younger than 30 minutes name more than one fuel status. */
  predicate HasContradiction(window: seq<Contribution>, now: Millis) {
    Disagree(FuelStatuses(Filter(window, IsRecentAt(now))))
  }

  lemma HasContradictionIff(window: seq<Contribution>, now: Millis)
    ensures HasContradiction(window, now) <==>
      exists i, j :: 0 <= i < |window| && 0 <= j < |window| &&
        IsRecent(window[i], now) && IsRecent(window[j], now) && Differ(window[i], window[j])
  {
    DisagreeIffDiffer(Filter(window, IsRecentAt(now)));
    DifferInFilter(window, IsRecentAt(now));
  }

  /** The newest report of a non-empty window is more than an hour old. */
  predicate IsStale(window: seq<Contribution>, now: Millis)
    requires window != []
  {
    now - window[0].createdAt > STALE_AFTER_MS
  }

  /** The score after the two independent penalties: halved for a contradiction, times 0.7 when stale. */
  function Penalized(base: real, contradiction: bool, stale: bool): (r: real)
  {
    var afterContradiction := if contradiction then base * 0.5 else base;
    if stale then afterContradiction * 0.7 else afterContradiction
  }

  lemma PenaltiesCompose(base: real, contradiction: bool, stale: bool)
    ensures Penalized(base, contradiction, stale) ==
            base * (if contradiction then 0.5 else 1.0) * (if stale then 0.7 else 1.0)
    ensures contradiction && stale ==> Penalized(base, contradiction, stale) == base * 0.35
  {
  }

  function Scored(window: seq<Contribution>): (s: seq<Contribution>)
    ensures |s| == Min(SCORED_CONTRIBUTIONS, |window|) && s == window[..|s|]
  {
    window[..Min(SCORED_CONTRIBUTIONS, |window|)]
  }

  /** `computeReliabilityScore` as a value. */
  function ReliabilityScore(contributions: seq<Contribution>, stationId: Id, now: Millis): (score: int)
    ensures 0 <= score
    ensures (forall i :: 0 <= i < |contributions| ==> !InScoreWindow(contributions[i], stationId, now)) ==>
            score == 0
  {
    var window := ScoreWindow(contributions, stationId, now);
    if window == [] then 0
    else
      var base := BaseScore(Scored(window), now);
      Round(Penalized(base, HasContradiction(window, now), IsStale(window, now)))
  }

  /** The loop of `computeReliabilityScore`: the sum of the reports' weighted recency factors. */
  method SumTerms(scored: seq<Contribution>, now: Millis) returns (total: real)
    ensures total == BaseScore(scored, now)
  {
    total := 0.0;
    for i := 0 to |scored|
      invariant total == BaseScore(scored[..i], now)
    {
      var contrib := scored[i];
      var age := now - contrib.createdAt;
      var recency := RecencyFactor(age);
      var weight := SourceWeight(contrib.sourceType);
      assert scored[..i + 1][..i] == scored[..i];
      assert BaseScore(scored[..i + 1], now) == BaseScore(scored[..i], now) + Term(contrib, now);
      total := total + weight * recency;
    }
    assert scored[..|scored|] == scored;
  }

  /** `computeReliabilityScore`: the sum over the ten newest reports, then the penalties. */
  method ComputeReliabilityScore(contributions: seq<Contribution>, stationId: Id, now: Millis)
    returns (score: int)
    ensures score == ReliabilityScore(contributions, stationId, now)
  {
    var window := ScoreWindow(contributions, stationId, now);
    if |window| == 0 {
      return 0;
    }
    var scored := window[..Min(SCORED_CONTRIBUTIONS, |window|)];
    var total := SumTerms(scored, now);
    assert scored == Scored(window);
    ghost var base := total;
    var hasContradiction := HasContradiction(window, now);
    if hasContradiction {
      total := total * 0.5;
    }
    var latestUpdate := window[0].createdAt;
    if now - latestUpdate > STALE_AFTER_MS {
      total := total * 0.7;
    }
    assert total == Penalized(base, hasContradiction, IsStale(window, now));
    score := Round(total);
  }

  lemma {:induction false} BaseScoreBound(s: seq<Contribution>, now: Millis)
    requires forall i :: 0 <= i < |s| ==> s[i].createdAt <= now
    ensures BaseScore(s, now) <= 10.0 * |s| as real
  {
    if s != [] {
      var n := |s| - 1;
      assert forall i :: 0 <= i < n ==> s[..n][i] == s[i];
      BaseScoreBound(s[..n], now);
    }
  }

  /** With no report dated after `now`, the score lies in 0..100. */
  lemma ReliabilityScoreBounded(contributions: seq<Contribution>, stationId: Id, now: Millis)
    requires forall i :: 0 <= i < |contributions| ==> contributions[i].createdAt <= now
    ensures 0 <= ReliabilityScore(contributions, stationId, now) <= 100
  {
    var window := ScoreWindow(contributions, stationId, now);
    if window != [] {
      var scored := Scored(window);
      ScoreWindowMembers(contributions, stationId, now);
      forall i | 0 <= i < |scored| ensures scored[i].createdAt <= now {
        assert scored[i] == window[i];
        assert window[i] in window;
      }
      BaseScoreBound(scored, now);
      var base := BaseScore(scored, now);
      assert base <= 100.0;
      PenaltiesCompose(base, HasContradiction(window, now), IsStale(window, now));
    }
  }

  /** Reports past the tenth newest are not summed. */
  lemma OnlyTenNewestSummed(window: seq<Contribution>, older: seq<Contribution>, now: Millis)
    requires |window| >= SCORED_CONTRIBUTIONS
    ensures BaseScore(Scored(window + older), now) == BaseScore(Scored(window), now)
  {
    assert Scored(window + older) == Scored(window);
  }

  /** The score is halved exactly when two recent reports name different fuel statuses. */
  lemma ContradictionHalves(contributions: seq<Contribution>, stationId: Id, now: Millis)
    requires ScoreWindow(contributions, stationId, now) != []
    ensures var window := ScoreWindow(contributions, stationId, now);
      var base := BaseScore(Scored(window), now);
      var stale := IsStale(window, now);
      ReliabilityScore(contributions, stationId, now) ==
        Round(base * (if HasContradiction(window, now) then 0.5 else 1.0) * (if stale then 0.7 else 1.0)) &&
      (HasContradiction(window, now) <==>
        exists i, j :: 0 <= i < |window| && 0 <= j < |window| &&
          IsRecent(window[i], now) && IsRecent(window[j], now) && Differ(window[i], window[j]))
  {
    var window := ScoreWindow(contributions, stationId, now);
    HasContradictionIff(window, now);
    PenaltiesCompose(BaseScore(Scored(window), now), HasContradiction(window, now), IsStale(window, now));
  }

  /** A single OFFICIAL report made just now scores 10. */
  lemma LoneOfficialScoresTen(c: Contribution, now: Millis)
    requires c.sourceType == Official && c.createdAt == now
    ensures ReliabilityScore([c], c.stationId, now) == 10
  {
    var window := ScoreWindow([c], c.stationId, now);
    assert window == [c];
    assert Scored(window) == [c];
    assert BaseScore([c], now) == 10.0 by {
      assert [c][..0] == [];
    }
    assert !HasContradiction(window, now) by {
      HasContradictionIff(window, now);
    }
  }

  // ---------------------------------------------------------------------
  // Alerts
  // ---------------------------------------------------------------------

  const NO_UPDATE_AFTER_MS: int := 90 * MINUTE_MS
  const HIGH_WAIT_MINUTES: int := 90
  const CONTRADICTION_LOOKBACK_MS: int := HOUR_MS

  /** NO_UPDATE: the station has no status row, or its newest row is older than 90 minutes. */
  predicate NoUpdateDue(statuses: seq<StationStatus>, stationId: Id, now: Millis) {
    var latest := LatestStatusIndex(statuses, stationId);
    latest.None? || statuses[latest.value].updatedAt < now - NO_UPDATE_AFTER_MS
  }

  lemma NoUpdateDueIff(statuses: seq<StationStatus>, stationId: Id, now: Millis)
    ensures NoUpdateDue(statuses, stationId, now) <==>
            forall i :: 0 <= i < |statuses| && statuses[i].stationId == stationId ==>
                        statuses[i].updatedAt < now - NO_UPDATE_AFTER_MS
  {
  }

  /**
   * HIGH_WAIT: the newest status row's upper waiting time is set and above
   * 90 minutes (a zero, which is falsy, is not above 90 either).
   */
  predicate HighWaitDue(statuses: seq<StationStatus>, stationId: Id) {
    var latest := LatestStatusIndex(statuses, stationId);
    latest.Some? &&
    var max := statuses[latest.value].waitingTimeMax;
    max.Some? && max.value != 0 && max.value > HIGH_WAIT_MINUTES
  }

  predicate IsRecentReport(c: Contribution, stationId: Id, now: Millis) {
    c.stationId == stationId && c.createdAt >= now - CONTRADICTION_LOOKBACK_MS && c.fuelStatus.Some?
  }

  function IsRecentReportOf(stationId: Id, now: Millis): Contribution -> bool {
    (c: Contribution) => IsRecentReport(c, stationId, now)
  }

  /** CONTRADICTION: at least two fuel-status reports of the last hour, naming more than one status. */
  predicate ContradictionDue(contributions: seq<Contribution>, stationId: Id, now: Millis) {
    var recent := Filter(contributions, IsRecentReportOf(stationId, now));
    |recent| >= 2 && Disagree(FuelStatuses(recent))
  }

  /** The two-report threshold is implied: the condition is "two recent reports differ". */
  lemma ContradictionDueIff(contributions: seq<Contribution>, stationId: Id, now: Millis)
    ensures ContradictionDue(contributions, stationId, now) <==>
      exists i, j :: 0 <= i < |contributions| && 0 <= j < |contributions| &&
        IsRecentReport(contributions[i], stationId, now) && IsRecentReport(contributions[j], stationId, now) &&
        Differ(contributions[i], contributions[j])
  {
    var recent := Filter(contributions, IsRecentReportOf(stationId, now));
    DisagreeIffDiffer(recent);
    DifferInFilter(contributions, IsRecentReportOf(stationId, now));
    if Disagree(FuelStatuses(recent)) {
      var i, j :| 0 <= i < |recent| && 0 <= j < |recent| && Differ(recent[i], recent[j]);
      assert i != j;
    }
  }

  /** Whether the condition for an alert type holds for a station. */
  predicate Due(alertType: AlertType, statuses: seq<StationStatus>, contributions: seq<Contribution>,
                stationId: Id, now: Millis) {
    match alertType
    case NoUpdate => NoUpdateDue(statuses, stationId, now)
    case HighWait => HighWaitDue(statuses, stationId)
    case Contradiction => ContradictionDue(contributions, stationId, now)
  }

  function NewAlert(stationId: Id, alertType: AlertType, now: Millis): Alert {
    Alert(stationId, alertType, Open, now, None)
  }

  /**
   * One dedup-gated insert. The existing-alert query uses `.single()`, which
   * yields a row only when exactly one OPEN alert matches.
   */
  function Gate(alerts: seq<Alert>, stationId: Id, alertType: AlertType, due: bool, now: Millis): seq<Alert> {
    if due && OpenCount(alerts, stationId, alertType) != 1 then alerts + [NewAlert(stationId, alertType, now)]
    else alerts
  }

  /** Under the one-OPEN-alert invariant the gate is "insert when due and none is open". */
  lemma GateUnderInvariant(alerts: seq<Alert>, stationId: Id, alertType: AlertType, due: bool, now: Millis)
    requires AtMostOneOpen(alerts)
    ensures Gate(alerts, stationId, alertType, due, now) ==
            if due && OpenCount(alerts, stationId, alertType) == 0
            then alerts + [NewAlert(stationId, alertType, now)] else alerts
  {
    assert OpenCount(alerts, stationId, alertType) <= 1;
  }

  /** The three checks for one station, in the order of the source. */
  function StationStep(alerts: seq<Alert>, stationId: Id, statuses: seq<StationStatus>,
                       contributions: seq<Contribution>, now: Millis): seq<Alert> {
    var a1 := Gate(alerts, stationId, NoUpdate, Due(NoUpdate, statuses, contributions, stationId, now), now);
    var a2 := Gate(a1, stationId, HighWait, Due(HighWait, statuses, contributions, stationId, now), now);
    Gate(a2, stationId, Contradiction, Due(Contradiction, statuses, contributions, stationId, now), now)
  }

  /** The alert table after visiting the stations `ids` in order. */
  function Sweep(alerts: seq<Alert>, ids: seq<Id>, statuses: seq<StationStatus>,
                 contributions: seq<Contribution>, now: Millis): seq<Alert> {
    if ids == [] then alerts
    else StationStep(Sweep(alerts, ids[..|ids| - 1], statuses, contributions, now), ids[|ids| - 1],
                     statuses, contributions, now)
  }

  /** The ids of the active stations, in table order. */
  function ActiveStationIds(stations: seq<Station>): (ids: seq<Id>)
    ensures forall id :: id in ids <==> exists i :: 0 <= i < |stations| && stations[i].isActive && stations[i].id == id
  {
    if stations == [] then []
    else
      var rest := ActiveStationIds(stations[1..]);
      assert forall i :: 1 <= i < |stations| ==> stations[i] == stations[1..][i - 1];
      if stations[0].isActive then [stations[0].id] + rest else rest
  }

  /** Every alert a gate adds is a new OPEN alert of its station and type. */
  predicate IsNewAlertOf(a: Alert, ids: seq<Id>, now: Millis) {
    a.stationId in ids && a.status == Open && a.createdAt == now && a.resolvedAt.None?
  }

  /** Alerts `after` appends to `alerts` are new OPEN alerts of `stationId`. */
  predicate AppendsOwn(alerts: seq<Alert>, after: seq<Alert>, stationId: Id, now: Millis) {
    alerts <= after &&
    forall k :: |alerts| <= k < |after| ==>
      after[k].stationId == stationId && after[k].status == Open && after[k].createdAt == now && after[k].resolvedAt.None?
  }

  lemma GateAppendsOwn(alerts: seq<Alert>, stationId: Id, alertType: AlertType, due: bool, now: Millis)
    ensures AppendsOwn(alerts, Gate(alerts, stationId, alertType, due, now), stationId, now)
  {
  }

  lemma AppendsOwnTrans(a: seq<Alert>, b: seq<Alert>, c: seq<Alert>, stationId: Id, now: Millis)
    requires AppendsOwn(a, b, stationId, now) && AppendsOwn(b, c, stationId, now)
    ensures AppendsOwn(a, c, stationId, now)
  {
    forall k | |a| <= k < |c|
      ensures c[k].stationId == stationId && c[k].status == Open && c[k].createdAt == now && c[k].resolvedAt.None?
    {
      if k < |b| {
        assert c[k] == b[k];
      }
    }
  }

  /** One station's three gates only append new OPEN alerts of that station. */
  lemma StationStepAppendsOwn(alerts: seq<Alert>, stationId: Id, statuses: seq<StationStatus>,
                              contributions: seq<Contribution>, now: Millis)
    ensures AppendsOwn(alerts, StationStep(alerts, stationId, statuses, contributions, now), stationId, now)
  {
    var a1 := Gate(alerts, stationId, NoUpdate, Due(NoUpdate, statuses, contributions, stationId, now), now);
    var a2 := Gate(a1, stationId, HighWait, Due(HighWait, statuses, contributions, stationId, now), now);
    var a3 := Gate(a2, stationId, Contradiction, Due(Contradiction, statuses, contributions, stationId, now), now);
    GateAppendsOwn(alerts, stationId, NoUpdate, Due(NoUpdate, statuses, contributions, stationId, now), now);
    GateAppendsOwn(a1, stationId, HighWait, Due(HighWait, statuses, contributions, stationId, now), now);
    GateAppendsOwn(a2, stationId, Contradiction, Due(Contradiction, statuses, contributions, stationId, now), now);
    AppendsOwnTrans(alerts, a1, a2, stationId, now);
    AppendsOwnTrans(alerts, a2, a3, stationId, now);
  }

  /** The sweep only appends, and only new OPEN alerts for the stations it visited. */
  lemma {:induction false} SweepOnlyAppends(alerts: seq<Alert>, ids: seq<Id>, statuses: seq<StationStatus>,
                                            contributions: seq<Contribution>, now: Millis)
    ensures var after := Sweep(alerts, ids, statuses, contributions, now);
      alerts <= after &&
      forall k :: |alerts| <= k < |after| ==> IsNewAlertOf(after[k], ids, now)
  {
    if ids != [] {
      var n := |ids| - 1;
      var prefix := ids[..n];
      SweepOnlyAppends(alerts, prefix, statuses, contributions, now);
      var mid := Sweep(alerts, prefix, statuses, contributions, now);
      var after := Sweep(alerts, ids, statuses, contributions, now);
      assert after == StationStep(mid, ids[n], statuses, contributions, now);
      StationStepAppendsOwn(mid, ids[n], statuses, contributions, now);
      forall k | |alerts| <= k < |after| ensures IsNewAlertOf(after[k], ids, now) {
        if k < |mid| {
          assert after[k] == mid[k];
          assert IsNewAlertOf(mid[k], prefix, now);
          assert mid[k].stationId in prefix;
        } else {
          assert after[k].stationId == ids[n];
        }
      }
    }
  }

  lemma GatePreservesAtMostOne(alerts: seq<Alert>, stationId: Id, alertType: AlertType, due: bool, now: Millis)
    requires AtMostOneOpen(alerts)
    ensures AtMostOneOpen(Gate(alerts, stationId, alertType, due, now))
  {
    var after := Gate(alerts, stationId, alertType, due, now);
    if after != alerts {
      forall sid, t ensures OpenCount(after, sid, t) <= 1 {
        OpenCountAppend(alerts, NewAlert(stationId, alertType, now), sid, t);
        assert OpenCount(alerts, sid, t) <= 1;
        assert OpenCount(alerts, stationId, alertType) == 0;
      }
    }
  }

  lemma {:induction false} SweepPreservesAtMostOne(alerts: seq<Alert>, ids: seq<Id>, statuses: seq<StationStatus>,
                                                   contributions: seq<Contribution>, now: Millis)
    requires AtMostOneOpen(alerts)
    ensures AtMostOneOpen(Sweep(alerts, ids, statuses, contributions, now))
  {
    if ids != [] {
      var n := |ids| - 1;
      SweepPreservesAtMostOne(alerts, ids[..n], statuses, contributions, now);
      var mid := Sweep(alerts, ids[..n], statuses, contributions, now);
      var id := ids[n];
      var a1 := Gate(mid, id, NoUpdate, Due(NoUpdate, statuses, contributions, id, now), now);
      var a2 := Gate(a1, id, HighWait, Due(HighWait, statuses, contributions, id, now), now);
      GatePreservesAtMostOne(mid, id, NoUpdate, Due(NoUpdate, statuses, contributions, id, now), now);
      GatePreservesAtMostOne(a1, id, HighWait, Due(HighWait, statuses, contributions, id, now), now);
      GatePreservesAtMostOne(a2, id, Contradiction, Due(Contradiction, statuses, contributions, id, now), now);
    }
  }

  lemma OpenCountGrows(a: seq<Alert>, b: seq<Alert>, stationId: Id, alertType: AlertType)
    requires a <= b
    ensures OpenCount(a, stationId, alertType) <= OpenCount(b, stationId, alertType)
  {
    assert b == a + b[|a|..];
    FilterConcat(a, b[|a|..], x => IsOpenOf(x, stationId, alertType));
  }

  /** After a gate whose condition holds, an OPEN alert of its type exists. */
  lemma GateRaises(alerts: seq<Alert>, stationId: Id, alertType: AlertType, now: Millis)
    ensures OpenCount(Gate(alerts, stationId, alertType, true, now), stationId, alertType) >= 1
  {
    if OpenCount(alerts, stationId, alertType) != 1 {
      OpenCountAppend(alerts, NewAlert(stationId, alertType, now), stationId, alertType);
    }
  }

  lemma StationStepRaises(alerts: seq<Alert>, stationId: Id, statuses: seq<StationStatus>,
                          contributions: seq<Contribution>, now: Millis, t: AlertType)
    requires Due(t, statuses, contributions, stationId, now)
    ensures OpenCount(StationStep(alerts, stationId, statuses, contributions, now), stationId, t) >= 1
  {
    var a1 := Gate(alerts, stationId, NoUpdate, Due(NoUpdate, statuses, contributions, stationId, now), now);
    var a2 := Gate(a1, stationId, HighWait, Due(HighWait, statuses, contributions, stationId, now), now);
    var a3 := Gate(a2, stationId, Contradiction, Due(Contradiction, statuses, contributions, stationId, now), now);
    assert alerts <= a1 <= a2 <= a3;
    match t
    case NoUpdate =>
      GateRaises(alerts, stationId, NoUpdate, now);
      OpenCountGrows(a1, a3, stationId, t);
    case HighWait =>
      GateRaises(a1, stationId, HighWait, now);
      OpenCountGrows(a2, a3, stationId, t);
    case Contradiction =>
      GateRaises(a2, stationId, Contradiction, now);
  }

  /** After the sweep, every visited station has an OPEN alert of every type whose condition holds. */
  lemma {:induction false} SweepRaisesDue(alerts: seq<Alert>, ids: seq<Id>, statuses: seq<StationStatus>,
                                          contributions: seq<Contribution>, now: Millis)
    ensures var after := Sweep(alerts, ids, statuses, contributions, now);
      forall k, t :: 0 <= k < |ids| && Due(t, statuses, contributions, ids[k], now) ==>
                     OpenCount(after, ids[k], t) >= 1
  {
    if ids != [] {
      var n := |ids| - 1;
      SweepRaisesDue(alerts, ids[..n], statuses, contributions, now);
      var mid := Sweep(alerts, ids[..n], statuses, contributions, now);
      var after := Sweep(alerts, ids, statuses, contributions, now);
      assert after == StationStep(mid, ids[n], statuses, contributions, now);
      StationStepAppends(mid, ids[n], statuses, contributions, now);
      forall k, t | 0 <= k < |ids| && Due(t, statuses, contributions, ids[k], now)
        ensures OpenCount(after, ids[k], t) >= 1
      {
        if k < n {
          assert ids[..n][k] == ids[k];
          OpenCountGrows(mid, after, ids[k], t);
        } else {
          StationStepRaises(mid, ids[n], statuses, contributions, now, t);
        }
      }
    }
  }

  lemma StationStepAppends(alerts: seq<Alert>, stationId: Id, statuses: seq<StationStatus>,
                           contributions: seq<Contribution>, now: Millis)
    ensures alerts <= StationStep(alerts, stationId, statuses, contributions, now)
  {
  }

  /** A sweep over stations whose due alerts are each open exactly once changes nothing. */
  lemma {:induction false} SweepSettled(alerts: seq<Alert>, ids: seq<Id>, statuses: seq<StationStatus>,
                                        contributions: seq<Contribution>, now: Millis)
    requires forall k, t :: 0 <= k < |ids| && Due(t, statuses, contributions, ids[k], now) ==>
                            OpenCount(alerts, ids[k], t) == 1
    ensures Sweep(alerts, ids, statuses, contributions, now) == alerts
  {
    if ids != [] {
      var n := |ids| - 1;
      forall k, t | 0 <= k < n && Due(t, statuses, contributions, ids[..n][k], now)
        ensures OpenCount(alerts, ids[..n][k], t) == 1
      {
        assert ids[..n][k] == ids[k];
      }
      SweepSettled(alerts, ids[..n], statuses, contributions, now);
      var id := ids[n];
      assert Due(NoUpdate, statuses, contributions, id, now) ==> OpenCount(alerts, id, NoUpdate) == 1;
      assert Due(HighWait, statuses, contributions, id, now) ==> OpenCount(alerts, id, HighWait) == 1;
      assert Due(Contradiction, statuses, contributions, id, now) ==> OpenCount(alerts, id, Contradiction) == 1;
    }
  }

  /** On unchanged tables, a second sweep inserts nothing. */
  lemma SweepIdempotent(alerts: seq<Alert>, ids: seq<Id>, statuses: seq<StationStatus>,
                        contributions: seq<Contribution>, now: Millis)
    requires AtMostOneOpen(alerts)
    ensures var once := Sweep(alerts, ids, statuses, contributions, now);
            Sweep(once, ids, statuses, contributions, now) == once
  {
    var once := Sweep(alerts, ids, statuses, contributions, now);
    SweepPreservesAtMostOne(alerts, ids, statuses, contributions, now);
    SweepRaisesDue(alerts, ids, statuses, contributions, now);
    forall k, t | 0 <= k < |ids| && Due(t, statuses, contributions, ids[k], now)
      ensures OpenCount(once, ids[k], t) == 1
    {
      assert OpenCount(once, ids[k], t) <= 1;
    }
    SweepSettled(once, ids, statuses, contributions, now);
  }

  /** The dedup-gated insert of one alert type whose condition holds. */
  method RaiseUnlessOpen(db: Database, stationId: Id, alertType: AlertType, now: Millis)
    modifies db
    ensures db.alerts == Gate(old(db.alerts), stationId, alertType, true, now)
    ensures db.stations == old(db.stations) && db.statuses == old(db.statuses)
    ensures db.contributions == old(db.contributions)
    ensures db.authUsers == old(db.authUsers) && db.profiles == old(db.profiles)
  {
    var existing := OpenCount(db.alerts, stationId, alertType);
    if existing != 1 {
      db.alerts := db.alerts + [NewAlert(stationId, alertType, now)];
    }
  }

  /** The three checks of one station. */
  method CheckStation(db: Database, stationId: Id, now: Millis)
    modifies db
    ensures db.alerts == StationStep(old(db.alerts), stationId, db.statuses, db.contributions, now)
    ensures db.stations == old(db.stations) && db.statuses == old(db.statuses)
    ensures db.contributions == old(db.contributions)
    ensures db.authUsers == old(db.authUsers) && db.profiles == old(db.profiles)
  {
    ghost var a0 := db.alerts;
    var latest := LatestStatusIndex(db.statuses, stationId);
    var noUpdate := latest.None? || db.statuses[latest.value].updatedAt < now - NO_UPDATE_AFTER_MS;
    assert noUpdate == Due(NoUpdate, db.statuses, db.contributions, stationId, now);
    if noUpdate {
      RaiseUnlessOpen(db, stationId, NoUpdate, now);
    }
    ghost var a1 := db.alerts;
    var highWait := latest.Some? && db.statuses[latest.value].waitingTimeMax.Some? &&
                    db.statuses[latest.value].waitingTimeMax.value != 0 &&
                    db.statuses[latest.value].waitingTimeMax.value > HIGH_WAIT_MINUTES;
    assert highWait == Due(HighWait, db.statuses, db.contributions, stationId, now);
    if highWait {
      RaiseUnlessOpen(db, stationId, HighWait, now);
    }
    ghost var a2 := db.alerts;
    var recent := Filter(db.contributions, IsRecentReportOf(stationId, now));
    if |recent| >= 2 {
      if Disagree(FuelStatuses(recent)) {
        RaiseUnlessOpen(db, stationId, Contradiction, now);
      }
    }
    assert a1 == Gate(a0, stationId, NoUpdate, Due(NoUpdate, db.statuses, db.contributions, stationId, now), now);
    assert a2 == Gate(a1, stationId, HighWait, Due(HighWait, db.statuses, db.contributions, stationId, now), now);
  }

  /** `generateAlerts`: one pass over the active stations, appending gated OPEN alerts. */
  method GenerateAlerts(db: Database, now: Millis)
    modifies db
    ensures db.alerts == Sweep(old(db.alerts), ActiveStationIds(db.stations), db.statuses, db.contributions, now)
    ensures db.stations == old(db.stations) && db.statuses == old(db.statuses)
    ensures db.contributions == old(db.contributions)
    ensures db.authUsers == old(db.authUsers) && db.profiles == old(db.profiles)
    ensures old(db.Valid()) ==> db.Valid()
  {
    var stations := ActiveStationIds(db.stations);
    for k := 0 to |stations|
      invariant db.alerts == Sweep(old(db.alerts), stations[..k], db.statuses, db.contributions, now)
      invariant db.stations == old(db.stations) && db.statuses == old(db.statuses)
      invariant db.contributions == old(db.contributions)
      invariant db.authUsers == old(db.authUsers) && db.profiles == old(db.profiles)
    {
      assert stations[..k + 1][..k] == stations[..k];
      CheckStation(db, stations[k], now);
    }
    assert stations[..|stations|] == stations;
    if old(db.Valid()) {
      SweepPreservesAtMostOne(old(db.alerts), stations, db.statuses, db.contributions, now);
    }
  }
}
