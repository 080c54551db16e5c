/**
 * The administrator dashboard (src/app/admin/page.tsx): the CSV reader of
 * the bulk user import, the aggregates shown on the dashboard, and the
 * resolution of an alert.
 */
module Admin {
  import opened Wrappers
  import opened Text
  import opened SeqUtil
  import opened Schema
  import opened Store
  import BusinessLogic

  // ---------------------------------------------------------------------
  // CSV import

  /** One user read from a CSV line; `None` is a cell the line does not have. */
  datatype CsvUser = CsvUser(email: Option<string>, role: Option<string>, stationId: Option<string>)

  /** Refused before any request (blank content, missing columns), or the users to send. */
  datatype CsvImport = EmptyContent | MissingColumns | Users(users: seq<CsvUser>)

  /** The header cells, trimmed and lower-cased. */
  function Headers(line: string): (r: seq<string>)
    ensures var cells := Split(line, ','); |r| == |cells| && forall k :: 0 <= k < |r| ==> r[k] == Lower(Trim(cells[k]))
  {
    var cells := Split(line, ',');
    seq(|cells|, k requires 0 <= k < |cells| => Lower(Trim(cells[k])))
  }

  /** The cells of a data line, trimmed. */
  function Cells(line: string): (r: seq<string>)
    ensures var cells := Split(line, ','); |r| == |cells| && forall k :: 0 <= k < |r| ==> r[k] == Trim(cells[k])
  {
    var cells := Split(line, ',');
    seq(|cells|, k requires 0 <= k < |cells| => Trim(cells[k]))
  }

  function IsHeader(name: string): string -> bool {
    (h: string) => h == name
  }

  /** `headers.indexOf(name)` */
  function ColumnOf(headers: seq<string>, name: string): (r: Option<nat>)
    ensures r.Some? ==> r.value < |headers| && headers[r.value] == name
    ensures r.None? <==> name !in headers
  {
    var r := FirstIndex(headers, IsHeader(name));
    assert r.None? ==> forall k :: 0 <= k < |headers| ==> headers[k] != name;
    r
  }

  /** `values[i]`, `undefined` past the end of the line. */
  function Cell(values: seq<string>, i: nat): Option<string> {
    if i < |values| then Some(values[i]) else None
  }

  function RowUser(line: string, emailAt: nat, roleAt: nat, stationAt: Option<nat>): CsvUser {
    var values := Cells(line);
    CsvUser(Cell(values, emailAt), Cell(values, roleAt),
            if stationAt.Some? then NonEmpty(Cell(values, stationAt.value)) else None)
  }

  function RowUsers(lines: seq<string>, emailAt: nat, roleAt: nat, stationAt: Option<nat>): (r: seq<CsvUser>)
    ensures |r| == |lines| && forall k :: 0 <= k < |r| ==> r[k] == RowUser(lines[k], emailAt, roleAt, stationAt)
  {
    seq(|lines|, k requires 0 <= k < |lines| => RowUser(lines[k], emailAt, roleAt, stationAt))
  }

  /** `.filter(u => u.email)` */
  predicate HasEmail(u: CsvUser) {
    u.email.Some? && u.email.value != ""
  }

  /** The users of the data lines that have an email. */
  function DataUsers(lines: seq<string>, emailAt: nat, roleAt: nat, stationAt: Option<nat>): seq<CsvUser> {
    Filter(RowUsers(lines, emailAt, roleAt, stationAt), HasEmail)
  }

  /** The lines of the trimmed content. */
  function Lines(content: string): seq<string> {
    Split(Trim(content), '\n')
  }

  /** The CSV reading of `handleImportCSV`, up to the request. */
  function ParseCsv(content: string): CsvImport {
    if Trim(content) == "" then EmptyContent
    else
      var lines := Lines(content);
      var headers := Headers(lines[0]);
      var emailAt := ColumnOf(headers, "email");
      var roleAt := ColumnOf(headers, "role");
      if emailAt.None? || roleAt.None? then MissingColumns
      else
        var stationAt := ColumnOf(headers, "station_id");
        Users(DataUsers(lines[1..], emailAt.value, roleAt.value, stationAt))
  }

  /** Blank content and content whose header lacks the email or the role column send nothing. */
  lemma ParseCsvRefusals(content: string)
    ensures ParseCsv(content) == EmptyContent <==> IsBlank(content)
    ensures ParseCsv(content) == MissingColumns <==>
      !IsBlank(content) &&
      ("email" !in Headers(Lines(content)[0]) || "role" !in Headers(Lines(content)[0]))
  {
    TrimEmptyIffBlank(content);
  }

  /** Every value of the user is trimmed, and a present station id is never empty. */
  predicate Trimmed(u: CsvUser) {
    (u.email.Some? ==> Trim(u.email.value) == u.email.value) &&
    (u.role.Some? ==> Trim(u.role.value) == u.role.value) &&
    (u.stationId.Some? ==> u.stationId.value != "" && Trim(u.stationId.value) == u.stationId.value)
  }

  lemma CellTrimmed(line: string, i: nat)
    ensures var c := Cell(Cells(line), i); c.Some? ==> Trim(c.value) == c.value
  {
    var cells := Split(line, ',');
    if i < |cells| {
      TrimIdempotent(cells[i]);
    }
  }

  lemma RowUserTrimmed(line: string, emailAt: nat, roleAt: nat, stationAt: Option<nat>)
    ensures Trimmed(RowUser(line, emailAt, roleAt, stationAt))
    ensures stationAt.None? ==> RowUser(line, emailAt, roleAt, stationAt).stationId.None?
  {
    CellTrimmed(line, emailAt);
    CellTrimmed(line, roleAt);
    if stationAt.Some? {
      CellTrimmed(line, stationAt.value);
    }
  }

  /**
   * The users of the data lines: at most one per line, in line order, each
   * with a non-empty email; every value is trimmed, and without a
   * station_id column no user has a station id.
   */
  lemma DataUsersShape(lines: seq<string>, emailAt: nat, roleAt: nat, stationAt: Option<nat>)
    ensures var users := DataUsers(lines, emailAt, roleAt, stationAt);
      |users| <= |lines| &&
      IsSubsequence(users, RowUsers(lines, emailAt, roleAt, stationAt)) &&
      forall k :: 0 <= k < |users| ==>
        HasEmail(users[k]) && Trimmed(users[k]) && (stationAt.None? ==> users[k].stationId.None?)
  {
    var all := RowUsers(lines, emailAt, roleAt, stationAt);
    var users := Filter(all, HasEmail);
    FilterIsSubsequence(all, HasEmail);
    FilterMembers(all, HasEmail);
    forall k | 0 <= k < |users|
      ensures HasEmail(users[k]) && Trimmed(users[k]) && (stationAt.None? ==> users[k].stationId.None?)
    {
      assert users[k] in all;
      var m :| 0 <= m < |all| && all[m] == users[k];
      RowUserTrimmed(lines[m], emailAt, roleAt, stationAt);
    }
  }

  /** The users of an accepted CSV: at most one per line after the header, trimmed, each with an email. */
  lemma CsvUsers(content: string)
    requires ParseCsv(content).Users?
    ensures var users := ParseCsv(content).users;
      |users| < |Lines(content)| &&
      forall k :: 0 <= k < |users| ==> HasEmail(users[k]) && Trimmed(users[k])
  {
    var lines := Lines(content);
    var headers := Headers(lines[0]);
    DataUsersShape(lines[1..], ColumnOf(headers, "email").value, ColumnOf(headers, "role").value,
                   ColumnOf(headers, "station_id"));
  }

  // ---------------------------------------------------------------------
  // Dashboard aggregates

  /** Some status row of the station has the availability. */
  function HasRowWith(statuses: seq<StationStatus>, availability: Availability): Station -> bool {
    (s: Station) => exists j :: 0 <= j < |statuses| && statuses[j].stationId == s.id &&
                                statuses[j].availability == availability
  }

  /** Every status row of the station (none at all included) was written before `cutoff`. */
  function NotUpdatedSince(statuses: seq<StationStatus>, cutoff: Millis): Station -> bool {
    (s: Station) => forall j :: 0 <= j < |statuses| && statuses[j].stationId == s.id ==> statuses[j].updatedAt < cutoff
  }

  /** `stationsWithFuel` (AVAILABLE) and `stationsOut` (OUT). */
  function StationsWith(stations: seq<Station>, statuses: seq<StationStatus>, availability: Availability): (n: nat)
    ensures n <= |stations|
  {
    Count(stations, HasRowWith(statuses, availability))
  }

  /**
   * A station with both an AVAILABLE and an OUT row counts towards both
   * figures, so the two can add up to more than the number of stations.
   */
  lemma CountedInBoth(s: Station, statuses: seq<StationStatus>)
    requires exists j :: 0 <= j < |statuses| && statuses[j].stationId == s.id && statuses[j].availability == Available
    requires exists j :: 0 <= j < |statuses| && statuses[j].stationId == s.id && statuses[j].availability == Out
    ensures StationsWith([s], statuses, Available) + StationsWith([s], statuses, Out) == 2 > |[s]|
  {
    assert HasRowWith(statuses, Available)(s);
    assert HasRowWith(statuses, Out)(s);
    assert [s][1..] == [];
  }

  /** `stationsNoUpdate`: no row, or every row older than one hour. */
  function StationsNoUpdate(stations: seq<Station>, statuses: seq<StationStatus>, now: Millis): (n: nat)
    ensures n <= |stations|
  {
    Count(stations, NotUpdatedSince(statuses, now - HOUR_MS))
  }

  /**
   * When no station has a row written within the hour (in particular when the
   * status table is empty), every station counts as not updated.
   */
  lemma NoRowsNoUpdate(stations: seq<Station>, statuses: seq<StationStatus>, now: Millis)
    requires forall i, j :: 0 <= i < |stations| && 0 <= j < |statuses| && statuses[j].stationId == stations[i].id ==>
      statuses[j].updatedAt < now - HOUR_MS
    ensures StationsNoUpdate(stations, statuses, now) == |stations|
  {
    FilterAll(stations, NotUpdatedSince(statuses, now - HOUR_MS));
  }

  /** A station with a row written within the hour is not counted. */
  lemma FreshRowCounts(stations: seq<Station>, statuses: seq<StationStatus>, now: Millis)
    requires forall i :: 0 <= i < |stations| ==>
      exists j :: 0 <= j < |statuses| && statuses[j].stationId == stations[i].id &&
                  statuses[j].updatedAt >= now - HOUR_MS
    ensures StationsNoUpdate(stations, statuses, now) == 0
  {
  }

  predicate HasWaitingTimeMax(s: StationStatus) { s.waitingTimeMax.Some? }

  /** The number of status rows whose `waiting_time_max` is `v`. */
  function MaxCount(statuses: seq<StationStatus>, v: int): nat {
    if statuses == [] then 0
    else (if statuses[0].waitingTimeMax == Some(v) then 1 else 0) + MaxCount(statuses[1..], v)
  }

  /**
   * The non-null `waiting_time_max` values of the status table, in order:
   * one for each row that has one, every such value gathered, and nothing else.
   */
  function WaitingTimes(statuses: seq<StationStatus>): (r: seq<int>)
    ensures |r| == Count(statuses, HasWaitingTimeMax)
    ensures forall k :: 0 <= k < |r| ==> exists j :: 0 <= j < |statuses| && statuses[j].waitingTimeMax == Some(r[k])
    ensures forall j :: 0 <= j < |statuses| && statuses[j].waitingTimeMax.Some? ==> statuses[j].waitingTimeMax.value in r
    ensures r == [] <==> forall j :: 0 <= j < |statuses| ==> statuses[j].waitingTimeMax.None?
  {
    if statuses == [] then []
    else
      var rest := WaitingTimes(statuses[1..]);
      assert Count(statuses, HasWaitingTimeMax) ==
        (if HasWaitingTimeMax(statuses[0]) then 1 else 0) + Count(statuses[1..], HasWaitingTimeMax);
      assert forall j :: 1 <= j < |statuses| ==> statuses[j] == statuses[1..][j - 1];
      assert forall k :: 0 <= k < |rest| ==> exists j :: 1 <= j < |statuses| && statuses[j].waitingTimeMax == Some(rest[k]) by {
        forall k | 0 <= k < |rest| ensures exists j :: 1 <= j < |statuses| && statuses[j].waitingTimeMax == Some(rest[k]) {
          var j :| 0 <= j < |statuses[1..]| && statuses[1..][j].waitingTimeMax == Some(rest[k]);
          assert statuses[j + 1].waitingTimeMax == Some(rest[k]);
        }
      }
      match statuses[0].waitingTimeMax
      case Some(t) => [t] + rest
      case None => rest
  }

  /** Each value occurs in the gathered list exactly as often as rows carry it as their maximum. */
  lemma {:induction false} WaitingTimesMultiplicity(statuses: seq<StationStatus>, v: int)
    ensures multiset(WaitingTimes(statuses))[v] == MaxCount(statuses, v)
  {
    if statuses != [] {
      WaitingTimesMultiplicity(statuses[1..], v);
      var rest := WaitingTimes(statuses[1..]);
      match statuses[0].waitingTimeMax
      case Some(t) =>
        assert WaitingTimes(statuses) == [t] + rest;
        assert multiset([t] + rest) == multiset{t} + multiset(rest);
      case None =>
    }
  }

  function Sum(xs: seq<int>): int {
    if xs == [] then 0 else xs[0] + Sum(xs[1..])
  }

  /** `Math.max(...xs)` */
  function MaxOf(xs: seq<int>): (m: int)
    requires xs != []
    ensures forall k :: 0 <= k < |xs| ==> xs[k] <= m
    ensures exists k :: 0 <= k < |xs| && xs[k] == m
  {
    if |xs| == 1 then xs[0]
    else
      var rest := MaxOf(xs[1..]);
      assert forall k :: 1 <= k < |xs| ==> xs[k] == xs[1..][k - 1];
      if xs[0] >= rest then xs[0] else rest
  }

  lemma {:induction false} SumAtMost(xs: seq<int>, bound: int)
    requires forall k :: 0 <= k < |xs| ==> xs[k] <= bound
    ensures Sum(xs) <= |xs| * bound
  {
    if xs != [] {
      SumAtMost(xs[1..], bound);
    }
  }

  /** `avgWaitingTime`: the rounded mean of the waiting times, 0 when there are none. */
  function AverageWaitingTime(statuses: seq<StationStatus>): int {
    var times := WaitingTimes(statuses);
    if |times| > 0 then BusinessLogic.Round(Sum(times) as real / |times| as real) else 0
  }

  /** `peakWaitingTime`: their maximum, 0 when there are none. */
  function PeakWaitingTime(statuses: seq<StationStatus>): int {
    var times := WaitingTimes(statuses);
    if |times| > 0 then MaxOf(times) else 0
  }

  /** The rounded mean never exceeds the peak; with no waiting time both are 0. */
  lemma AverageAtMostPeak(statuses: seq<StationStatus>)
    ensures AverageWaitingTime(statuses) <= PeakWaitingTime(statuses)
    ensures (forall j :: 0 <= j < |statuses| ==> statuses[j].waitingTimeMax.None?) ==>
              AverageWaitingTime(statuses) == 0 && PeakWaitingTime(statuses) == 0
  {
    var times := WaitingTimes(statuses);
    if |times| > 0 {
      var peak := MaxOf(times);
      SumAtMost(times, peak);
      MeanAtMost(Sum(times), |times|, peak);
    }
  }

  /** A mean of values bounded by `peak` rounds to at most `peak`. */
  lemma MeanAtMost(sum: int, n: nat, peak: int)
    requires n > 0 && sum <= n * peak
    ensures BusinessLogic.Round(sum as real / n as real) <= peak
  {
    var q := sum as real / n as real;
    QuotientAtMost(sum as real, n as real, peak as real);
    var r := BusinessLogic.Round(q);
    assert r as real - 0.5 <= q;
  }

  lemma QuotientAtMost(sum: real, n: real, peak: real)
    requires n > 0.0 && sum <= n * peak
    ensures sum / n <= peak
  {
    var q := sum / n;
    assert q * n == sum;
    if q > peak {
      assert q * n > peak * n;
    }
  }

  /** The number of stations with an AVAILABLE row written within yesterday's window. */
  function YesterdayStationsWithFuel(statuses: seq<StationStatus>, dayStart: Millis, dayEnd: Millis): nat {
    |set j | 0 <= j < |statuses| && dayStart <= statuses[j].updatedAt <= dayEnd &&
             statuses[j].availability == Available :: statuses[j].stationId|
  }

  /** `fuelPercentageChange`: the rounded percentage change, 0 when yesterday had none. */
  function FuelPercentageChange(today: nat, yesterday: nat): (r: int)
    ensures yesterday == 0 ==> r == 0
  {
    if yesterday > 0 then BusinessLogic.Round((today - yesterday) as real / yesterday as real * 100.0) else 0
  }

  /** The change has the sign of the difference and never goes below -100%. */
  lemma FuelPercentageChangeSign(today: nat, yesterday: nat)
    ensures today >= yesterday ==> FuelPercentageChange(today, yesterday) >= 0
    ensures today <= yesterday ==> FuelPercentageChange(today, yesterday) <= 0
    ensures FuelPercentageChange(today, yesterday) >= -100
    ensures today == yesterday ==> FuelPercentageChange(today, yesterday) == 0
  {
    if yesterday > 0 {
      var y := yesterday as real;
      var x := (today - yesterday) as real / y * 100.0;
      assert (today - yesterday) as real >= -y;
      assert (today - yesterday) as real / y >= -1.0;
      assert x >= -100.0;
    }
  }

  datatype Stats = Stats(
    totalStations: nat,
    stationsWithFuel: nat,
    stationsOut: nat,
    avgWaitingTime: int,
    peakWaitingTime: int,
    stationsNoUpdate: nat,
    contributionsLast2h: nat,
    fuelPercentageChange: int)

  function IsRecentContribution(now: Millis): Contribution -> bool {
    (c: Contribution) => c.createdAt >= now - 2 * HOUR_MS
  }

  /**
   * `loadData`'s statistics. The per-station counts are over the active
   * stations; the waiting times over every status row. `dayStart` and
   * `dayEnd` bound yesterday in the browser's time zone.
   */
  function DashboardStats(stations: seq<Station>, statuses: seq<StationStatus>, contributions: seq<Contribution>,
                          now: Millis, dayStart: Millis, dayEnd: Millis): (r: Stats)
    ensures r.stationsWithFuel <= r.totalStations && r.stationsOut <= r.totalStations
    ensures r.stationsNoUpdate <= r.totalStations
    ensures r.avgWaitingTime <= r.peakWaitingTime
    ensures r.fuelPercentageChange >= -100
  {
    var active := Filter(stations, IsActive);
    var withFuel := StationsWith(active, statuses, Available);
    AverageAtMostPeak(statuses);
    FuelPercentageChangeSign(withFuel, YesterdayStationsWithFuel(statuses, dayStart, dayEnd));
    Stats(|active|, withFuel, StationsWith(active, statuses, Out),
          AverageWaitingTime(statuses), PeakWaitingTime(statuses),
          StationsNoUpdate(active, statuses, now),
          Count(contributions, IsRecentContribution(now)),
          FuelPercentageChange(withFuel, YesterdayStationsWithFuel(statuses, dayStart, dayEnd)))
  }

  // ---------------------------------------------------------------------
  // Alerts

  /**
   * `resolveAlert`: the alert at `alertIndex` becomes RESOLVED at `now`; an
   * index that names no alert matches no row and changes nothing.
   */
  method ResolveAlert(db: Database, alertIndex: nat, now: Millis)
    modifies db
    ensures alertIndex < |old(db.alerts)| ==>
      db.alerts == old(db.alerts)[alertIndex := old(db.alerts)[alertIndex].(status := Resolved, resolvedAt := Some(now))]
    ensures alertIndex >= |old(db.alerts)| ==> db.alerts == old(db.alerts)
    ensures db.stations == old(db.stations) && db.statuses == old(db.statuses)
    ensures db.contributions == old(db.contributions)
    ensures db.authUsers == old(db.authUsers) && db.profiles == old(db.profiles)
    ensures old(db.Valid()) ==> db.Valid()
  {
    if alertIndex < |db.alerts| {
      var resolved := db.alerts[alertIndex].(status := Resolved, resolvedAt := Some(now));
      ghost var before := db.alerts;
      db.alerts := db.alerts[alertIndex := resolved];
      forall stationId, alertType ensures OpenCount(db.alerts, stationId, alertType) <= OpenCount(before, stationId, alertType) {
        CountUpdateNoMore(before, alertIndex, resolved, a => IsOpenOf(a, stationId, alertType));
      }
    }
  }

  /** Resolving leaves the other alerts as they were and never opens one. */
  lemma ResolvedAlertClosed(alerts: seq<Alert>, alertIndex: nat, now: Millis)
    requires alertIndex < |alerts|
    ensures var r := alerts[alertIndex := alerts[alertIndex].(status := Resolved, resolvedAt := Some(now))];
      r[alertIndex].status == Resolved &&
      forall stationId, alertType :: OpenCount(r, stationId, alertType) <= OpenCount(alerts, stationId, alertType)
  {
    var resolved := alerts[alertIndex].(status := Resolved, resolvedAt := Some(now));
    forall stationId, alertType
      ensures OpenCount(alerts[alertIndex := resolved], stationId, alertType) <= OpenCount(alerts, stationId, alertType)
    {
      CountUpdateNoMore(alerts, alertIndex, resolved, a => IsOpenOf(a, stationId, alertType));
    }
  }
}
