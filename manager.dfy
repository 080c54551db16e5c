/**
 * The station manager's page (src/app/manager/page.tsx): the form loaded
 * from the station's status rows, the "has changes" flag, the OFFICIAL
 * update of both fuel types with its per-fuel results and feedback, and
 * the "time ago" wording of the last update.
 */
module Manager {
  import opened Wrappers
  import opened SeqUtil
  import opened Schema
  import opened Store

  /** The form: an availability per fuel type and one waiting-time range for both. */
  datatype Form = Form(essence: Availability, gasoil: Availability,
                       waitingTimeMin: Option<int>, waitingTimeMax: Option<int>)

  /** The availability the form gives a fuel type. */
  function Chosen(form: Form, fuelType: FuelType): Availability {
    match fuelType
    case Essence => form.essence
    case Gasoil => form.gasoil
  }

  // ---------------------------------------------------------------------
  // Loading the form

  /** `a ?? b` on two optional numbers. */
  function Coalesce(a: Option<int>, b: Option<int>): (r: Option<int>)
    ensures a.Some? ==> r == a
    ensures a.None? ==> r == b
  {
    if a.Some? then a else b
  }

  function MinOf(row: Option<StationStatus>): Option<int> {
    if row.Some? then row.value.waitingTimeMin else None
  }

  function MaxOf(row: Option<StationStatus>): Option<int> {
    if row.Some? then row.value.waitingTimeMax else None
  }

  /** `row?.availability || 'AVAILABLE'` */
  function AvailabilityOr(row: Option<StationStatus>): (a: Availability)
    ensures row.None? ==> a == Available
    ensures row.Some? ==> a == row.value.availability
  {
    if row.Some? then row.value.availability else Available
  }

  /** `loadStatuses`: the form as the station's rows fill it. */
  function LoadForm(fetched: seq<StationStatus>): Form {
    var essence := FindFuel(fetched, Essence);
    var gasoil := FindFuel(fetched, Gasoil);
    Form(AvailabilityOr(essence), AvailabilityOr(gasoil),
         Coalesce(MinOf(essence), MinOf(gasoil)), Coalesce(MaxOf(essence), MaxOf(gasoil)))
  }

  /** A fuel type without a row starts the form at AVAILABLE; one with a row starts at its newest row. */
  lemma LoadFormDefaults(fetched: seq<StationStatus>, fuelType: FuelType)
    ensures (forall j :: 0 <= j < |fetched| ==> fetched[j].fuelType != fuelType) ==>
              Chosen(LoadForm(fetched), fuelType) == Available
    ensures FindFuel(fetched, fuelType).Some? ==>
              Chosen(LoadForm(fetched), fuelType) == FindFuel(fetched, fuelType).value.availability
  {
  }

  /** The `hasChanges` effect: the form differs from the rows, or the station has no row at all. */
  function HasChanges(form: Form, fetched: seq<StationStatus>): bool {
    var essence := FindFuel(fetched, Essence);
    var gasoil := FindFuel(fetched, Gasoil);
    var statusChanges :=
      (essence.Some? && form.essence != essence.value.availability) ||
      (gasoil.Some? && form.gasoil != gasoil.value.availability) ||
      form.waitingTimeMin != Coalesce(MinOf(essence), MinOf(gasoil)) ||
      form.waitingTimeMax != Coalesce(MaxOf(essence), MaxOf(gasoil));
    statusChanges || (essence.None? && gasoil.None?)
  }

  /** A station with no row of either fuel type always has changes to submit. */
  lemma NoRowsHasChanges(form: Form, fetched: seq<StationStatus>)
    requires forall j :: 0 <= j < |fetched| ==> fetched[j].fuelType != Essence && fetched[j].fuelType != Gasoil
    ensures HasChanges(form, fetched)
  {
  }

  /** The freshly loaded form has changes exactly when the station has no row of either fuel type. */
  lemma LoadedFormUnchanged(fetched: seq<StationStatus>)
    ensures HasChanges(LoadForm(fetched), fetched) <==> FindFuel(fetched, Essence).None? && FindFuel(fetched, Gasoil).None?
  {
  }

  // ---------------------------------------------------------------------
  // Submitting

  /** Both times given and the minimum above the maximum: refused before any write. */
  predicate RangeInverted(form: Form) {
    form.waitingTimeMin.Some? && form.waitingTimeMax.Some? && form.waitingTimeMin.value > form.waitingTimeMax.value
  }

  /** The database's answers for one fuel type: whether the lookup and the status write succeed. */
  datatype Answers = Answers(selectOk: bool, writeOk: bool)

  datatype Failure = CheckFailed | UpdateFailed | InsertFailed

  /** One entry of `updateResults`; a success has no failure. */
  datatype FuelResult = FuelResult(fuelType: FuelType, failure: Option<Failure>)

  predicate Succeeded(r: FuelResult) { r.failure.None? }

  predicate Failed(r: FuelResult) { r.failure.Some? }

  /** The row an OFFICIAL update leaves for its (station, fuel type). */
  predicate IsOfficialRow(r: StationStatus, stationId: Id, fuelType: FuelType, form: Form, now: Millis) {
    OfPair(r, stationId, fuelType) && r.availability == Chosen(form, fuelType) &&
    r.waitingTimeMin == form.waitingTimeMin && r.waitingTimeMax == form.waitingTimeMax &&
    r.lastUpdateSource == Official && r.updatedAt == now
  }

  /** The pair has exactly one row, and it carries the manager's values. */
  predicate HoldsOfficial(rows: seq<StationStatus>, stationId: Id, fuelType: FuelType, form: Form, now: Millis) {
    var at := SinglePairIndex(rows, stationId, fuelType);
    at.Some? && IsOfficialRow(rows[at.value], stationId, fuelType, form, now)
  }

  /** The inserted row: the columns the insert does not name take their defaults. */
  function OfficialRow(stationId: Id, fuelType: FuelType, form: Form, now: Millis): (r: StationStatus)
    ensures IsOfficialRow(r, stationId, fuelType, form, now)
    ensures r.pumpsActive.None? && r.reliabilityScore == 0
  {
    StationStatus(stationId, fuelType, Chosen(form, fuelType), None, form.waitingTimeMin, form.waitingTimeMax,
                  0, Official, now)
  }

  /** The contribution recorded after a successful status write; the page sends no user id. */
  function OfficialContribution(stationId: Id, fuelType: FuelType, form: Form, now: Millis): Contribution {
    Contribution(stationId, None, Official, None, Some(Chosen(form, fuelType)), now)
  }

  /** The two written tables and the results so far. */
  datatype Progress = Progress(statuses: seq<StationStatus>, contributions: seq<Contribution>,
                               results: seq<FuelResult>)

  /**
   * One pass of the per-fuel loop. The `maybeSingle` lookup fails when the
   * database fails or when the pair has two or more rows; with one row it is
   * updated, with none a row is inserted; a contribution follows only a
   * successful write.
   */
  function UpdateFuel(p: Progress, stationId: Id, fuelType: FuelType, form: Form, a: Answers, now: Millis): Progress {
    var rows := p.statuses;
    if !a.selectOk || PairCount(rows, stationId, fuelType) >= 2 then
      Progress(rows, p.contributions, p.results + [FuelResult(fuelType, Some(CheckFailed))])
    else
      match SinglePairIndex(rows, stationId, fuelType)
      case Some(k) =>
        if !a.writeOk then Progress(rows, p.contributions, p.results + [FuelResult(fuelType, Some(UpdateFailed))])
        else
          Progress(rows[k := rows[k].(availability := Chosen(form, fuelType), waitingTimeMin := form.waitingTimeMin,
                                      waitingTimeMax := form.waitingTimeMax, lastUpdateSource := Official,
                                      updatedAt := now)],
                   p.contributions + [OfficialContribution(stationId, fuelType, form, now)],
                   p.results + [FuelResult(fuelType, None)])
      case None =>
        if !a.writeOk then Progress(rows, p.contributions, p.results + [FuelResult(fuelType, Some(InsertFailed))])
        else
          Progress(rows + [OfficialRow(stationId, fuelType, form, now)],
                   p.contributions + [OfficialContribution(stationId, fuelType, form, now)],
                   p.results + [FuelResult(fuelType, None)])
  }

  /** The loop over `fuels`: one result per fuel type, in order, whatever the others did. */
  function UpdateFuels(p: Progress, stationId: Id, form: Form, answers: FuelType -> Answers, now: Millis,
                       fuels: seq<FuelType>): (q: Progress)
    ensures |q.results| == |p.results| + |fuels| && q.results[..|p.results|] == p.results
    ensures forall k :: 0 <= k < |fuels| ==> q.results[|p.results| + k].fuelType == fuels[k]
  {
    if fuels == [] then p
    else
      var mid := UpdateFuels(p, stationId, form, answers, now, fuels[..|fuels| - 1]);
      var q := UpdateFuel(mid, stationId, fuels[|fuels| - 1], form, answers(fuels[|fuels| - 1]), now);
      assert q.results[..|mid.results|] == mid.results;
      q
  }

  /** The contributions a list of results leads to: one OFFICIAL report per success, in order. */
  function ContributionsFor(results: seq<FuelResult>, stationId: Id, form: Form, now: Millis): seq<Contribution> {
    if results == [] then []
    else
      var last := results[|results| - 1];
      ContributionsFor(results[..|results| - 1], stationId, form, now) +
      (if Succeeded(last) then [OfficialContribution(stationId, last.fuelType, form, now)] else [])
  }

  /**
   * One pass of the loop, under the one-row-per-pair invariant, adds one
   * result for its fuel type; it succeeds exactly when the database accepts
   * both calls, and fails at the lookup exactly when the lookup call fails.
   * A success appends the OFFICIAL contribution; a failure writes nothing.
   */
  lemma UpdateFuelOutcome(p: Progress, stationId: Id, fuelType: FuelType, form: Form, a: Answers, now: Millis)
    requires UniquePairs(p.statuses)
    ensures var q := UpdateFuel(p, stationId, fuelType, form, a, now);
      var last := q.results[|q.results| - 1];
      q.results == p.results + [last] && last.fuelType == fuelType &&
      (Succeeded(last) <==> a.selectOk && a.writeOk) &&
      (last.failure == Some(CheckFailed) <==> !a.selectOk) &&
      (Succeeded(last) ==> q.contributions == p.contributions + [OfficialContribution(stationId, fuelType, form, now)]) &&
      (Failed(last) ==> q.statuses == p.statuses && q.contributions == p.contributions)
  {
    assert PairCount(p.statuses, stationId, fuelType) <= 1;
  }

  /** A pass changes only rows of its own pair, and adds only rows of that pair. */
  lemma UpdateFuelFrame(p: Progress, stationId: Id, fuelType: FuelType, form: Form, a: Answers, now: Millis)
    ensures var q := UpdateFuel(p, stationId, fuelType, form, a, now);
      |p.statuses| <= |q.statuses| &&
      (forall j :: 0 <= j < |p.statuses| && !OfPair(p.statuses[j], stationId, fuelType) ==>
         q.statuses[j] == p.statuses[j]) &&
      (forall j :: |p.statuses| <= j < |q.statuses| ==> OfPair(q.statuses[j], stationId, fuelType))
  {
  }

  /**
   * A pass keeps at most one row per pair, and a successful one leaves its
   * pair with exactly one row, carrying the manager's values.
   */
  lemma UpdateFuelWrites(p: Progress, stationId: Id, fuelType: FuelType, form: Form, a: Answers, now: Millis)
    requires UniquePairs(p.statuses)
    ensures var q := UpdateFuel(p, stationId, fuelType, form, a, now);
      UniquePairs(q.statuses) &&
      (a.selectOk && a.writeOk ==> HoldsOfficial(q.statuses, stationId, fuelType, form, now))
  {
    var rows := p.statuses;
    var q := UpdateFuel(p, stationId, fuelType, form, a, now);
    assert PairCount(rows, stationId, fuelType) <= 1;
    if a.selectOk && a.writeOk {
      var at := SinglePairIndex(rows, stationId, fuelType);
      if at.Some? {
        var k := at.value;
        UniqueAfterUpdate(rows, k, q.statuses[k]);
        PairCountAfterUpdate(rows, k, q.statuses[k], stationId, fuelType);
        var found := SinglePairIndex(q.statuses, stationId, fuelType);
        if found.value != k {
          TwoPairRows(q.statuses, stationId, fuelType, found.value, k);
          assert false;
        }
      } else {
        var row := OfficialRow(stationId, fuelType, form, now);
        UniqueAfterInsert(rows, row);
        PairCountAppend(rows, row, stationId, fuelType);
      }
    }
  }

  /** A pass for one fuel type leaves another fuel type's OFFICIAL row as it was. */
  lemma UpdateFuelKeepsOther(p: Progress, stationId: Id, fuelType: FuelType, other: FuelType, form: Form,
                             a: Answers, now: Millis)
    requires UniquePairs(p.statuses) && other != fuelType
    requires HoldsOfficial(p.statuses, stationId, other, form, now)
    ensures HoldsOfficial(UpdateFuel(p, stationId, fuelType, form, a, now).statuses, stationId, other, form, now)
  {
    var rows := p.statuses;
    var r := UpdateFuel(p, stationId, fuelType, form, a, now).statuses;
    UpdateFuelFrame(p, stationId, fuelType, form, a, now);
    UpdateFuelWrites(p, stationId, fuelType, form, a, now);
    var before := SinglePairIndex(rows, stationId, other).value;
    assert r[before] == rows[before];
    assert PairCount(r, stationId, other) <= 1;
    assert PairCount(r, stationId, other) != 0;
    var at := SinglePairIndex(r, stationId, other);
    if at.value != before {
      TwoPairRows(r, stationId, other, at.value, before);
      assert false;
    }
  }

  /** The contributions appended by the loop are exactly those its results call for. */
  lemma {:induction false} UpdateFuelsContributions(p: Progress, stationId: Id, form: Form,
                                                    answers: FuelType -> Answers, now: Millis, fuels: seq<FuelType>)
    requires UniquePairs(p.statuses)
    ensures var q := UpdateFuels(p, stationId, form, answers, now, fuels);
      UniquePairs(q.statuses) &&
      q.contributions == p.contributions + ContributionsFor(q.results[|p.results|..], stationId, form, now)
  {
    var q := UpdateFuels(p, stationId, form, answers, now, fuels);
    if fuels == [] {
      assert q.results[|p.results|..] == [];
    } else {
      var n := |fuels| - 1;
      var mid := UpdateFuels(p, stationId, form, answers, now, fuels[..n]);
      UpdateFuelsContributions(p, stationId, form, answers, now, fuels[..n]);
      UpdateFuelOutcome(mid, stationId, fuels[n], form, answers(fuels[n]), now);
      UpdateFuelWrites(mid, stationId, fuels[n], form, answers(fuels[n]), now);
      var added := q.results[|p.results|..];
      assert added[..|added| - 1] == mid.results[|p.results|..];
    }
  }

  /** Submitting runs the loop body for ESSENCE, then for GASOIL. */
  lemma UpdateBothFuels(p: Progress, stationId: Id, form: Form, answers: FuelType -> Answers, now: Millis)
    ensures UpdateFuels(p, stationId, form, answers, now, FUEL_TYPES) ==
            UpdateFuel(UpdateFuel(p, stationId, Essence, form, answers(Essence), now),
                       stationId, Gasoil, form, answers(Gasoil), now)
  {
    assert FUEL_TYPES[..1] == [Essence] && [Essence][..0] == [];
    assert UpdateFuels(p, stationId, form, answers, now, [Essence]) ==
           UpdateFuel(p, stationId, Essence, form, answers(Essence), now);
  }

  /**
   * With at most one row per pair to begin with, submitting the form gives
   * one result per fuel type, ESSENCE then GASOIL, and each succeeds exactly
   * when the database accepts its calls, whatever happened to the other.
   */
  lemma PerformUpdateResults(rows: seq<StationStatus>, contributions: seq<Contribution>, stationId: Id, form: Form,
                             answers: FuelType -> Answers, now: Millis)
    requires UniquePairs(rows)
    ensures var q := UpdateFuels(Progress(rows, contributions, []), stationId, form, answers, now, FUEL_TYPES);
      |q.results| == 2 && q.results[0].fuelType == Essence && q.results[1].fuelType == Gasoil &&
      (Succeeded(q.results[0]) <==> answers(Essence).selectOk && answers(Essence).writeOk) &&
      (Succeeded(q.results[1]) <==> answers(Gasoil).selectOk && answers(Gasoil).writeOk)
  {
    var p := Progress(rows, contributions, []);
    var mid := UpdateFuel(p, stationId, Essence, form, answers(Essence), now);
    UpdateBothFuels(p, stationId, form, answers, now);
    UpdateFuelOutcome(p, stationId, Essence, form, answers(Essence), now);
    UpdateFuelWrites(p, stationId, Essence, form, answers(Essence), now);
    UpdateFuelOutcome(mid, stationId, Gasoil, form, answers(Gasoil), now);
  }

  /**
   * With at most one row per pair to begin with, every successful fuel type
   * of a submission leaves its pair with one row carrying the manager's
   * values; the invariant holds afterwards and rows of other stations are
   * untouched.
   */
  lemma PerformUpdateRows(rows: seq<StationStatus>, contributions: seq<Contribution>, stationId: Id, form: Form,
                          answers: FuelType -> Answers, now: Millis)
    requires UniquePairs(rows)
    ensures var q := UpdateFuels(Progress(rows, contributions, []), stationId, form, answers, now, FUEL_TYPES);
      UniquePairs(q.statuses) &&
      (answers(Essence).selectOk && answers(Essence).writeOk ==> HoldsOfficial(q.statuses, stationId, Essence, form, now)) &&
      (answers(Gasoil).selectOk && answers(Gasoil).writeOk ==> HoldsOfficial(q.statuses, stationId, Gasoil, form, now)) &&
      |rows| <= |q.statuses| &&
      (forall j :: 0 <= j < |rows| && rows[j].stationId != stationId ==> q.statuses[j] == rows[j])
  {
    var p := Progress(rows, contributions, []);
    var mid := UpdateFuel(p, stationId, Essence, form, answers(Essence), now);
    UpdateBothFuels(p, stationId, form, answers, now);
    UpdateFuelFrame(p, stationId, Essence, form, answers(Essence), now);
    UpdateFuelWrites(p, stationId, Essence, form, answers(Essence), now);
    UpdateFuelFrame(mid, stationId, Gasoil, form, answers(Gasoil), now);
    UpdateFuelWrites(mid, stationId, Gasoil, form, answers(Gasoil), now);
    if answers(Essence).selectOk && answers(Essence).writeOk {
      UpdateFuelKeepsOther(mid, stationId, Gasoil, Essence, form, answers(Gasoil), now);
    }
  }

  /** The contributions a submission appends: one OFFICIAL report per successful fuel type, in order. */
  lemma PerformUpdateContributions(rows: seq<StationStatus>, contributions: seq<Contribution>, stationId: Id,
                                   form: Form, answers: FuelType -> Answers, now: Millis)
    requires UniquePairs(rows)
    ensures var q := UpdateFuels(Progress(rows, contributions, []), stationId, form, answers, now, FUEL_TYPES);
      q.contributions == contributions + ContributionsFor(q.results, stationId, form, now)
  {
    var q := UpdateFuels(Progress(rows, contributions, []), stationId, form, answers, now, FUEL_TYPES);
    UpdateFuelsContributions(Progress(rows, contributions, []), stationId, form, answers, now, FUEL_TYPES);
    assert q.results[0..] == q.results;
  }

  /** The toast after the loop: success for two successes, a warning for one, an error otherwise. */
  datatype Feedback =
    | SuccessFeedback
    | WarningFeedback(succeeded: FuelType, failed: FuelResult)
    | ErrorFeedback(failures: seq<FuelResult>)

  function FeedbackOf(results: seq<FuelResult>): (f: Feedback)
    requires |results| == 2
    ensures f.SuccessFeedback? <==> Succeeded(results[0]) && Succeeded(results[1])
    ensures f.WarningFeedback? <==> Succeeded(results[0]) != Succeeded(results[1])
    ensures f.WarningFeedback? ==>
      (Succeeded(results[0]) ==> f.succeeded == results[0].fuelType && f.failed == results[1]) &&
      (Succeeded(results[1]) ==> f.succeeded == results[1].fuelType && f.failed == results[0])
    ensures f.ErrorFeedback? ==> f.failures == results
  {
    FilterTwo(results, Succeeded);
    FilterTwo(results, Failed);
    var successCount := Count(results, Succeeded);
    var failed := Filter(results, Failed);
    if successCount == 2 then SuccessFeedback
    else if successCount == 1 then
      WarningFeedback(if Succeeded(results[0]) then results[0].fuelType else results[1].fuelType, failed[0])
    else ErrorFeedback(failed)
  }

  datatype UpdateOutcome = NoStation | RangeRefused | Submitted(results: seq<FuelResult>, feedback: Feedback)

  /**
   * `performUpdate`: `station` is the loaded station's id, if any, and
   * `answers` the database's answers to each fuel type's calls. The
   * OFFICIAL contribution insert is not checked by the page and lands.
   */
  method PerformUpdate(db: Database, station: Option<Id>, form: Form, answers: FuelType -> Answers, now: Millis)
    returns (outcome: UpdateOutcome)
    modifies db
    ensures station.None? ==> outcome == NoStation
    ensures station.Some? && RangeInverted(form) ==> outcome == RangeRefused
    ensures station.None? || RangeInverted(form) ==>
              db.statuses == old(db.statuses) && db.contributions == old(db.contributions)
    ensures station.Some? && !RangeInverted(form) ==>
      var q := UpdateFuels(Progress(old(db.statuses), old(db.contributions), []), station.value, form, answers, now,
                           FUEL_TYPES);
      db.statuses == q.statuses && db.contributions == q.contributions &&
      outcome == Submitted(q.results, FeedbackOf(q.results))
    ensures db.stations == old(db.stations) && db.alerts == old(db.alerts)
    ensures db.authUsers == old(db.authUsers) && db.profiles == old(db.profiles)
    ensures old(db.Valid()) ==> db.Valid()
  {
    if station.None? {
      return NoStation;
    }
    if RangeInverted(form) {
      return RangeRefused;
    }
    var stationId := station.value;
    ghost var start := Progress(db.statuses, db.contributions, []);
    var updateResults: seq<FuelResult> := [];
    for i := 0 to |FUEL_TYPES|
      invariant Progress(db.statuses, db.contributions, updateResults) ==
                UpdateFuels(start, stationId, form, answers, now, FUEL_TYPES[..i])
      invariant db.stations == old(db.stations) && db.alerts == old(db.alerts)
      invariant db.authUsers == old(db.authUsers) && db.profiles == old(db.profiles)
    {
      var fuelType := FUEL_TYPES[i];
      var availability := Chosen(form, fuelType);
      var a := answers(fuelType);
      assert FUEL_TYPES[..i + 1][..i] == FUEL_TYPES[..i];
      ghost var before := Progress(db.statuses, db.contributions, updateResults);
      assert UpdateFuels(start, stationId, form, answers, now, FUEL_TYPES[..i + 1]) ==
             UpdateFuel(before, stationId, fuelType, form, a, now);
      if !a.selectOk || PairCount(db.statuses, stationId, fuelType) >= 2 {
        updateResults := updateResults + [FuelResult(fuelType, Some(CheckFailed))];
        continue;
      }
      var existing := SinglePairIndex(db.statuses, stationId, fuelType);
      if existing.Some? {
        if !a.writeOk {
          updateResults := updateResults + [FuelResult(fuelType, Some(UpdateFailed))];
          continue;
        }
        var k := existing.value;
        db.statuses := db.statuses[k := db.statuses[k].(availability := availability,
                                                         waitingTimeMin := form.waitingTimeMin,
                                                         waitingTimeMax := form.waitingTimeMax,
                                                         lastUpdateSource := Official, updatedAt := now)];
      } else {
        if !a.writeOk {
          updateResults := updateResults + [FuelResult(fuelType, Some(InsertFailed))];
          continue;
        }
        db.statuses := db.statuses + [OfficialRow(stationId, fuelType, form, now)];
      }
      db.contributions := db.contributions + [OfficialContribution(stationId, fuelType, form, now)];
      updateResults := updateResults + [FuelResult(fuelType, None)];
    }
    assert FUEL_TYPES[..|FUEL_TYPES|] == FUEL_TYPES;
    if old(db.Valid()) {
      PerformUpdateRows(start.statuses, start.contributions, stationId, form, answers, now);
    }
    outcome := Submitted(updateResults, FeedbackOf(updateResults));
  }

  // ---------------------------------------------------------------------
  // Time ago

  /** The wording of `getTimeAgo`: Jamais, À l'instant, Il y a N min, Il y a Nh, Il y a Nj. */
  datatype TimeAgo = Never | JustNow | MinutesAgo(minutes: int) | HoursAgo(hours: int) | DaysAgo(days: int)

  /** `Math.floor` of the elapsed time in minutes, hours and days; floors also for a date in the future. */
  function TimeAgoOf(date: Option<Millis>, now: Millis): TimeAgo {
    if date.None? then Never
    else
      var diffMins := (now - date.value) / MINUTE_MS;
      if diffMins < 1 then JustNow
      else if diffMins < 60 then MinutesAgo(diffMins)
      else
        var diffHours := diffMins / 60;
        if diffHours < 24 then HoursAgo(diffHours)
        else DaysAgo(diffHours / 24)
  }

  /**
   * Each wording covers one band of elapsed time: under a minute (or in the
   * future), then whole minutes below the hour, whole hours below the day,
   * and whole days.
   */
  lemma TimeAgoBands(date: Millis, now: Millis)
    ensures var t := TimeAgoOf(Some(date), now);
      var diff := now - date;
      (t == JustNow <==> diff < MINUTE_MS) &&
      (t.MinutesAgo? ==> 1 <= t.minutes < 60 && t.minutes * MINUTE_MS <= diff < (t.minutes + 1) * MINUTE_MS) &&
      (t.MinutesAgo? <==> MINUTE_MS <= diff < HOUR_MS) &&
      (t.HoursAgo? ==> 1 <= t.hours < 24 && t.hours * HOUR_MS <= diff < (t.hours + 1) * HOUR_MS) &&
      (t.HoursAgo? <==> HOUR_MS <= diff < 24 * HOUR_MS) &&
      (t.DaysAgo? ==> t.days >= 1 && t.days * 24 * HOUR_MS <= diff < (t.days + 1) * 24 * HOUR_MS) &&
      (t.DaysAgo? <==> diff >= 24 * HOUR_MS)
  {
    var diff := now - date;
    assert MINUTE_MS == 60000 && HOUR_MS == 3600000;
    var m := diff / 60000;
    FloorDiv(diff, 60000);
    var h := m / 60;
    FloorDiv(m, 60);
    var d := h / 24;
    FloorDiv(h, 24);
    assert h * 3600000 <= diff < (h + 1) * 3600000;
    assert d * 86400000 <= diff < (d + 1) * 86400000;
  }

  /** Floor division brackets its dividend. */
  lemma FloorDiv(x: int, k: int)
    requires k > 0
    ensures (x / k) * k <= x < (x / k + 1) * k
  {
  }
}
