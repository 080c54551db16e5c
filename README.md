# sirafuel in Dafny

sirafuel tracks fuel availability and queues at the fuel stations of Mali.
The public, trusted reporters and station managers report whether ESSENCE
and GASOIL are available and how long the queue is. The application keeps
one status row per station and fuel type. From the recent reports it
estimates a waiting time and a reliability score, and it raises alerts for
stations that have gone quiet, have long queues or receive contradictory
reports.

This project models that core and proves properties of it:

- **The store** (`Store`). A `Database` class holds the tables as sequences
  in insertion order: stations, status rows, contributions, alerts,
  accounts and user profiles. Its `Valid()` invariant says there is at most
  one status row per (station, fuel type) and at most one OPEN alert per
  (station, alert type).
- **The business logic** (`BusinessLogic`, src/lib/business-logic.ts):
  - the waiting-time estimate from the newest queue category;
  - the reliability score from the weighted, decaying recent
    contributions, with its contradiction and staleness penalties;
  - the alert sweep with its dedup gate.
- **The routes**:
  - `ContributeRoute`: ingest a report;
  - `RecomputeRoute`: write the derived values onto a station's rows;
  - `AdminUsersRoute`: the admin gates and the batch creation of users,
    with rollback.
- **The import script** (`ImportStations`): fuel type and status mapping,
  the skip rule, field defaults, brand fallback and the upserts.
- **The pages' logic**:
  - `HomePage`, `ContributePage` and `TrustedPage` build the station lists;
    `Listing` holds what they share;
  - `Manager` is the manager's OFFICIAL update;
  - `Profile` and `Onboarding` are the password change and the first-login
    form;
  - `Admin` is the CSV import reader, the dashboard aggregates and alert
    resolution.
- **Display rules**:
  - `Labels` (src/lib/utils.ts);
  - `StationUtils`: brand extraction and slugs;
  - `BrandIcons`: brand logos;
  - `BottomNav`: the role-dependent navigation;
  - `StationCard`: the texts, icon and link of a station card.

`Schema` gives the enumerations and row shapes of src/lib/supabase/types.ts.
`Text`, `SeqUtil` and `Wrappers` model the JavaScript built-ins the code
relies on: string trimming and case mapping, `filter`, stable `sort`,
`null`. Timestamps are integer milliseconds, and the current time is a
parameter. The database, the auth provider and other services are
parameters too: the rows they hold, or the answer each call gives, such as
whether an insert succeeds.

When code stores state step by step, it is modelled as a method on the
`Database`. Examples are the routes, the alert sweep, the import loop, the
manager's update and the alert resolution. Each such method is proved to
leave exactly the state described by a function of the old state. Lemmas
about those functions carry the properties. Pure code is modelled as
functions and lemmas.

Some lookups end in `.single()` or `.maybeSingle()` without a `limit(1)`.
These are the manager's and the import script's status lookups, the import
script's station lookup, the admin users route's profile lookup and the
alert sweep's dedup gates.
At those lookups the model finds a row only when exactly one row matches.
Two matches count as an error, as in the client library. The lookups that
order by `updated_at` and take `limit(1)` first always find the newest row
when there is one. Under the store's invariant both kinds of lookup find
the same status row, and lemmas prove it.

## Model

| member | source | states |
|---|---|---|
| BusinessLogic.VehicleRange | src/lib/business-logic.ts:46-67 | each queue category estimates a vehicle range whose lower end is below its upper end, within 0..50 |
| BusinessLogic.MinutesIsQuotient | src/lib/business-logic.ts:69-71 | with at least one pump, `floor(vehicles / pumps * 3)` equals the integer quotient of `vehicles * 3` by the pump count |
| BusinessLogic.MinutesMonotone | src/lib/business-logic.ts:69-71 | more vehicles never give a shorter estimated wait for the same pump count |
| BusinessLogic.LatestStatusIndex | src/lib/business-logic.ts:24-31 | the chosen status row belongs to the station and no row of the station is newer; none is chosen exactly when the station has no row |
| BusinessLogic.EffectivePumps | src/lib/business-logic.ts:24-33 | the pump count used is never zero; it is 1 when the station has no status row or its newest row has a null or zero `pumps_active`, and otherwise that row's count |
| BusinessLogic.NewestQueueIndex | src/lib/business-logic.ts:15-22 | the chosen report is the station's newest one carrying a queue category; none exactly when the station has no such report |
| BusinessLogic.ComputeWaitingTime | src/lib/business-logic.ts:9-77 | both ends of the estimate are present or both absent, and they are absent exactly when the station has no report with a queue category |
| BusinessLogic.WaitingTimeUsesNewest | src/lib/business-logic.ts:39-44 | whenever the station has a queue report, the estimate is the one computed from its newest such report |
| BusinessLogic.WaitingTimeOrdered | src/lib/business-logic.ts:69-76 | with a positive pump count, an estimate is a non-negative range whose minimum does not exceed its maximum |
| BusinessLogic.WaitingTimeExample | src/lib/business-logic.ts:55-58 | a 10-30 queue at a station with two active pumps is estimated at 4 to 15 minutes |
| BusinessLogic.SourceWeight | src/lib/business-logic.ts:102-107 | a report weighs between 1 and 10, and weighs 10 exactly when it is official |
| BusinessLogic.RecencyFactor | src/lib/business-logic.ts:124-125 | the recency factor is 1 for a report made now, decays to 0 at two hours, and stays within 0..1 for past reports |
| BusinessLogic.Term | src/lib/business-logic.ts:124-128 | a report's contribution to the score is non-negative and at most its source weight when it is not in the future |
| BusinessLogic.BaseScore | src/lib/business-logic.ts:121-129 | the summed score of the scored reports is non-negative |
| BusinessLogic.Round | src/lib/business-logic.ts:145 | rounding picks the integer nearest the score, halves going up |
| BusinessLogic.ScoreWindow | src/lib/business-logic.ts:85-93 | the window holds only the station's reports of the last two hours, newest first, and is empty exactly when there is none |
| BusinessLogic.ScoreWindowMembers | src/lib/business-logic.ts:88-93 | a report is in the window exactly when it is one of the station's reports of the last two hours |
| BusinessLogic.FuelStatuses | src/lib/business-logic.ts:115-117 | dropping reports without an availability never lengthens the list |
| BusinessLogic.FuelStatusesMembers | src/lib/business-logic.ts:115-117 | an availability is listed exactly when some report carries it |
| BusinessLogic.DisagreeIff | src/lib/business-logic.ts:119 | a set of more than one availability means two listed availabilities differ, and conversely |
| BusinessLogic.DisagreeIffDiffer | src/lib/business-logic.ts:115-119 | the listed availabilities disagree exactly when two reports carry different availabilities |
| BusinessLogic.HasContradictionIff | src/lib/business-logic.ts:109-119 | the score sees a contradiction exactly when two reports of the last 30 minutes carry different availabilities |
| BusinessLogic.Scored | src/lib/business-logic.ts:122 | the scored reports are the first ten of the window, or all of it when shorter |
| BusinessLogic.ReliabilityScore | src/lib/business-logic.ts:82-146 | the score is never negative, and is 0 when the station has no report in the last two hours |
| BusinessLogic.SumTerms | src/lib/business-logic.ts:121-129 | the loop's running total is the summed weighted recency of the scored reports |
| BusinessLogic.ComputeReliabilityScore | src/lib/business-logic.ts:82-146 | the imperative computation returns the reliability score of the station at that instant |
| BusinessLogic.BaseScoreBound | src/lib/business-logic.ts:121-129 | reports that are not in the future sum to at most 10 per report |
| BusinessLogic.ReliabilityScoreBounded | src/lib/business-logic.ts:82-146 | when no report is in the future, the score lies within 0..100 |
| BusinessLogic.OnlyTenNewestSummed | src/lib/business-logic.ts:122 | once ten reports are in the window, older ones do not change the sum |
| BusinessLogic.ContradictionHalves | src/lib/business-logic.ts:131-145 | a non-empty window is scored as its rounded sum times 0.5 on contradiction and 0.7 when stale, the contradiction meaning two recent differing reports |
| BusinessLogic.LoneOfficialScoresTen | src/lib/business-logic.ts:102-129 | a single official report made now scores 10 |
| BusinessLogic.NoUpdateDueIff | src/lib/business-logic.ts:166-176 | a no-update alert is due exactly when every status row of the station is older than 90 minutes (or there is none) |
| BusinessLogic.ContradictionDueIff | src/lib/business-logic.ts:214-224 | a contradiction alert is due exactly when two reports of the last hour carry different availabilities |
| BusinessLogic.GateUnderInvariant | src/lib/business-logic.ts:177-192 | while at most one alert of each kind is open per station, a due alert is inserted exactly when none of its kind is open |
| BusinessLogic.ActiveStationIds | src/lib/business-logic.ts:154-160 | the swept ids are exactly those of the active stations |
| BusinessLogic.GateAppendsOwn | src/lib/business-logic.ts:186-191 | a dedup gate only appends open, unresolved alerts of its own station created now |
| BusinessLogic.StationStepAppendsOwn | src/lib/business-logic.ts:165-241 | one station's three checks only append open alerts of that station created now |
| BusinessLogic.SweepOnlyAppends | src/lib/business-logic.ts:151-243 | the sweep keeps every existing alert and adds only open, unresolved alerts of swept stations created now |
| BusinessLogic.GatePreservesAtMostOne | src/lib/business-logic.ts:177-192 | a dedup gate keeps at most one open alert per station and kind |
| BusinessLogic.SweepPreservesAtMostOne | src/lib/business-logic.ts:151-243 | the sweep keeps at most one open alert per station and kind |
| BusinessLogic.OpenCountGrows | src/lib/business-logic.ts:186-191 | appending alerts never lowers the number of open alerts of a station and kind |
| BusinessLogic.GateRaises | src/lib/business-logic.ts:177-192 | after a due gate at least one alert of its kind is open for the station |
| BusinessLogic.StationStepRaises | src/lib/business-logic.ts:165-241 | after a station's checks, every alert kind due for it is open |
| BusinessLogic.SweepRaisesDue | src/lib/business-logic.ts:151-243 | after the sweep, every kind due for a swept station has an open alert |
| BusinessLogic.StationStepAppends | src/lib/business-logic.ts:165-241 | a station's checks keep every existing alert in place |
| BusinessLogic.SweepSettled | src/lib/business-logic.ts:151-243 | when each due kind already has exactly one open alert, the sweep changes nothing |
| BusinessLogic.SweepIdempotent | src/lib/business-logic.ts:151-243 | sweeping twice at the same instant is the same as sweeping once |
| BusinessLogic.RaiseUnlessOpen | src/lib/business-logic.ts:177-192 | the alert table becomes the gated table and no other table changes |
| BusinessLogic.CheckStation | src/lib/business-logic.ts:165-241 | the alert table becomes that of one station step and no other table changes |
| BusinessLogic.GenerateAlerts | src/lib/business-logic.ts:151-243 | the alert table becomes the sweep over the active stations, the other tables are unchanged, and the database invariant is kept |
| Schema.RoleOf | src/lib/supabase/types.ts:41 | a stored role text is read back only as the role stored under that text |
| Schema.RoleNameRoundTrip | src/lib/supabase/types.ts:41 | every role is stored under a text of its own and read back from it |
| Store.NewestPairIndex | src/app/api/contribute/route.ts:51-57 | the newest row of a (station, fuel type) pair belongs to the pair, and none is found exactly when the pair has no row |
| Store.SinglePairIndex | src/app/manager/page.tsx:217-222 | the unlimited `.maybeSingle()` lookup of a (station, fuel type) row, also used at scripts/import-stations.ts:188-193, finds a row exactly when the pair has exactly one, and the row found belongs to the pair |
| Store.SingleIsNewest | scripts/import-stations.ts:188-193 | while no pair has two rows, the manager's and the import script's exactly-one lookups find the same row as the contribute route's newest-first lookup |
| Store.UniqueAfterInsert | src/app/api/contribute/route.ts:69-75 | inserting a row for a pair that has none keeps every pair at one row or fewer |
| Store.PairCountAppend | src/app/api/contribute/route.ts:69-75 | an appended row adds one to its own pair's count and nothing to any other pair's |
| Store.TwoPairRows | src/app/api/contribute/route.ts:51-58 | two distinct rows of the same pair make its count at least two |
| Store.PairCountAfterUpdate | src/app/api/contribute/route.ts:60-68 | updating a row in place without changing its station or fuel type leaves every pair count unchanged |
| Store.UniqueAfterUpdate | src/app/api/contribute/route.ts:60-68 | such an update keeps every pair at one row or fewer |
| Store.NewStatusRow | src/app/api/contribute/route.ts:69-75 | an inserted status row carries the given pair, availability and source; the columns the insert leaves out take the assumed column defaults (the current time, no pumps, no waiting time, a zero score) |
| Store.FindFuel | src/app/manager/page.tsx:131-132 | the row found has the fuel type and is one of the fetched rows; none is found exactly when no fetched row has that fuel type |
| Store.OpenCountAppend | src/lib/business-logic.ts:186-191 | an appended alert adds one to the open count of its own station and kind only when it is open |
| ContributeRoute.UpsertAt | src/app/api/contribute/route.ts:51-60 | the row written is an existing row of the pair exactly when the pair has one, and otherwise a new row at the end |
| ContributeRoute.Upsert | src/app/api/contribute/route.ts:51-76 | the pair's row is updated in place, or a fresh row is appended when there is none, so that it holds the report; every other row is unchanged |
| ContributeRoute.UpsertKeepsUnique | src/app/api/contribute/route.ts:51-76 | the write keeps every pair at one row or fewer and leaves the reported pair with exactly one |
| ContributeRoute.ReportAllFrame | src/app/api/contribute/route.ts:48-77 | reporting to a station keeps every existing row's pair, leaves other stations' rows untouched and adds rows only for that station |
| ContributeRoute.UpsertReports | src/app/api/contribute/route.ts:51-76 | after the write, the pair's single row holds the reported availability, a public source and the current time |
| ContributeRoute.UpsertKeepsOtherReport | src/app/api/contribute/route.ts:50-77 | writing one fuel type does not disturb the report just written for the other |
| ContributeRoute.ReportBothEffect | src/app/api/contribute/route.ts:48-77 | after the loop over both fuel types, each of them holds the report in its single row and no pair has two rows |
| ContributeRoute.ReportFuelStatus | src/app/api/contribute/route.ts:48-77 | the loop leaves the status table as the report written for Essence and then Gasoil, and changes no other table |
| ContributeRoute.Post | src/app/api/contribute/route.ts:5-89 | a missing or empty station id is refused with 400 and writes nothing; a refused insert gives 500 and writes nothing; otherwise one public contribution is appended, both fuel types take the reported availability when one is given, and the table invariants are kept |
| RecomputeRoute.WithWaitingTime | src/app/api/recompute/route.ts:24-34 | every row of the station takes the new waiting time and every other row is unchanged |
| RecomputeRoute.WithScore | src/app/api/recompute/route.ts:40-49 | every row of the station takes the new score and every other row is unchanged |
| RecomputeRoute.RecomputedRows | src/app/api/recompute/route.ts:14-49 | after recomputation each row of the station carries the station's waiting time and score, all its other columns as before, and other stations' rows are unchanged |
| RecomputeRoute.RecomputedKeepsUnique | src/app/api/recompute/route.ts:14-49 | recomputation keeps every (station, fuel type) pair at one row or fewer |
| RecomputeRoute.WaitingTimeIgnoresDerived | src/lib/business-logic.ts:24-33 | the waiting-time estimate does not depend on the waiting-time and score columns it is written back to |
| RecomputeRoute.RecomputeIdempotent | src/app/api/recompute/route.ts:14-49 | recomputing twice at the same instant gives the same table as once |
| RecomputeRoute.WriteWaitingTime | src/app/api/recompute/route.ts:24-34 | the loop writes the waiting time into the station's rows and changes no other table |
| RecomputeRoute.WriteScore | src/app/api/recompute/route.ts:40-49 | the loop writes the score into the station's rows and changes no other table |
| RecomputeRoute.Post | src/app/api/recompute/route.ts:5-56 | a missing or empty station id is refused with 400 and changes nothing; otherwise the station's rows are recomputed, no other table changes, and the invariants are kept |
| Manager.Coalesce | src/app/manager/page.tsx:137-138 | `a ?? b` is the first value when there is one, and the second otherwise |
| Manager.AvailabilityOr | src/app/manager/page.tsx:134-135 | a fuel type without a row starts the form as available, and one with a row starts at the row's availability |
| Manager.LoadFormDefaults | src/app/manager/page.tsx:122-138 | the loaded form shows each fuel type's first fetched availability, and available for a fuel type no row has |
| Manager.NoRowsHasChanges | src/app/manager/page.tsx:59-75 | with no row for either fuel type, the form always counts as changed |
| Manager.LoadedFormUnchanged | src/app/manager/page.tsx:59-75 | the form just loaded from the rows counts as changed exactly when neither fuel type has a row |
| Manager.OfficialRow | src/app/manager/page.tsx:255-262 | an inserted row holds the form's value for its fuel type, the form's waiting time and an official source; the columns the insert leaves out take the assumed column defaults (the current time, no pumps, a zero score) |
| Manager.UpdateFuels | src/app/manager/page.tsx:212-289 | the loop records one result per fuel type, in the order visited, after the earlier results |
| Manager.UpdateFuelOutcome | src/app/manager/page.tsx:215-288 | a fuel type succeeds exactly when both its lookup and its write succeed; a failed lookup is reported as such; a success adds one official contribution and a failure writes nothing |
| Manager.UpdateFuelFrame | src/app/manager/page.tsx:215-272 | one fuel type's write leaves the rows of every other pair in place and adds rows only for its own pair |
| Manager.UpdateFuelWrites | src/app/manager/page.tsx:215-272 | the write keeps every pair at one row or fewer, and a success leaves the pair's single row holding the official values |
| Manager.UpdateFuelKeepsOther | src/app/manager/page.tsx:212-289 | writing one fuel type does not disturb the official row just written for the other |
| Manager.UpdateFuelsContributions | src/app/manager/page.tsx:274-281 | the loop appends one official contribution for each fuel type that succeeded, in order, and keeps the pairs unique |
| Manager.UpdateBothFuels | src/app/manager/page.tsx:212 | the loop visits Essence and then Gasoil |
| Manager.PerformUpdateResults | src/app/manager/page.tsx:209-289 | there are two results, Essence then Gasoil, each a success exactly when both of its database calls succeed |
| Manager.PerformUpdateRows | src/app/manager/page.tsx:212-289 | afterwards each fuel type that succeeded holds the official values in its single row, pairs stay unique, and other stations' rows are unchanged |
| Manager.PerformUpdateContributions | src/app/manager/page.tsx:274-281 | the contributions gained are exactly the official ones of the fuel types that succeeded |
| Manager.FeedbackOf | src/app/manager/page.tsx:291-308 | success when both fuel types succeed, a warning naming the one that succeeded and the one that failed when exactly one does, and an error listing both failures otherwise |
| Manager.PerformUpdate | src/app/manager/page.tsx:195-317 | without a station nothing happens; an inverted waiting-time range is refused and writes nothing; otherwise the tables become those of the per-fuel loop, the feedback follows its results, and the invariants are kept |
| Manager.TimeAgoBands | src/app/manager/page.tsx:319-331 | the age shown is "just now" under a minute, whole minutes under an hour, whole hours under a day and whole days beyond, each the floor of the elapsed time in its unit |
| Labels.AvailabilityIcon | src/lib/utils.ts:21-32 | the white disc is shown exactly when no availability is known |
| Labels.AvailabilityIconInjective | src/lib/utils.ts:21-32 | different availabilities get different icons |
| Labels.AvailabilityLabel | src/lib/utils.ts:34-45 | "Inconnu" is shown exactly when no availability is known |
| Labels.AvailabilityLabelInjective | src/lib/utils.ts:34-45 | different availabilities get different labels |
| Labels.QueueLabel | src/lib/utils.ts:47-60 | "Inconnu" is shown exactly when no queue category is known |
| Labels.QueueLabelInjective | src/lib/utils.ts:47-60 | different queue categories get different labels |
| Labels.ReliabilityLabel | src/lib/utils.ts:62-66 | a score of 50 or more is high, 20 to 49 medium and below 20 low |
| Labels.ReliabilityLabelMonotone | src/lib/utils.ts:62-66 | a higher score never gets a lower reliability label |
| Labels.RoleLabel | src/lib/utils.ts:68-79 | every role has a non-empty label |
| Labels.RoleLabelInjective | src/lib/utils.ts:68-79 | different roles get different labels |
| StationUtils.BrandPatternsWellFormed | src/lib/station-utils.ts:17-34 | each brand pattern, case-folded, is a non-empty word of lower-case letters, digits and spaces |
| StationUtils.FirstMatch | src/lib/station-utils.ts:36-43 | the pattern chosen matches the name followed by whitespace and no earlier pattern does; none is chosen exactly when no pattern matches |
| StationUtils.CapitalizedMatch | src/lib/station-utils.ts:37-41 | the brand returned for a matching pattern is the pattern's own spelling with a capital first letter, whatever the case in the name |
| StationUtils.ExistingBrandWins | src/lib/station-utils.ts:9-12 | a non-blank stored brand is returned trimmed, whatever the name |
| StationUtils.ExtractedBrand | src/lib/station-utils.ts:8-47 | without a stored brand, the result is the capitalized spelling of the first pattern the trimmed name starts with, or the empty text when none does |
| StationUtils.NoWhitespaceNoMatch | src/lib/station-utils.ts:17-34 | a name without whitespace matches no pattern, since each needs whitespace after the brand |
| StationUtils.NoMatchNoBrand | src/lib/station-utils.ts:45-46 | when no pattern matches and no brand is stored, the brand is the empty text |
| StationUtils.SingleWordHasNoBrand | src/lib/station-utils.ts:14-46 | a one-word name without a stored brand gets no brand |
| StationUtils.DashWhitespaceRuns | src/lib/station-utils.ts:52-54 | the slug is no longer than its input and holds no whitespace |
| StationUtils.NoWhitespaceUnchanged | src/lib/station-utils.ts:53 | text without whitespace is left as it is |
| StationUtils.RunBecomesOneDash | src/lib/station-utils.ts:53 | each maximal run of whitespace becomes a single dash |
| BrandIcons.KeyOf | src/components/icons/BrandIcons.tsx:137-160 | each icon's key is non-empty, lower-case and without surrounding whitespace |
| BrandIcons.KeySelectsIcon | src/components/icons/BrandIcons.tsx:134-164 | every icon is selected by its own key, so no icon is unreachable |
| BrandIcons.IgnoresCase | src/components/icons/BrandIcons.tsx:135 | lower-casing a brand first does not change the icon chosen |
| BrandIcons.IgnoresSurroundingWhitespace | src/components/icons/BrandIcons.tsx:135 | trimming a brand first does not change the icon chosen |
| BrandIcons.YaraServiceIsYara | src/components/icons/BrandIcons.tsx:150-152 | "yara service", in any case and with any surrounding whitespace, shows the Yara icon |
| BrandIcons.ExtractedBrandHasIcon | src/components/icons/BrandIcons.tsx:134-164 | of the brands recognised in station names, exactly the first eleven (Oryx to Amazone) have an icon; Birgo, Comap, Cam Holding, 2Holding and ADF fall back to none |
| BrandIcons.PatternIcons | src/lib/station-utils.ts:17-34 | a brand pattern's lower-case spelling is an icon key exactly for the first eleven patterns |
| BrandIcons.SpellingLowers | src/lib/station-utils.ts:41 | lower-casing the capitalized brand gives back the pattern's lower-case spelling |
| BottomNav.ThirdItem | src/components/ui/BottomNav.tsx:77-102 | the third item is the manager item exactly for station managers, the reporter item exactly for trusted reporters, and absent for every other role |
| BottomNav.BuildNavItems | src/components/ui/BottomNav.tsx:116-130 | the bar starts with Stations and ends with Profile, has four items only for station managers, shows Contribute to everyone but trusted reporters, the manager and reporter items only to their roles, and never repeats an id; without a role it is the loading bar |
| BottomNav.LoadingActiveStaysActive | src/components/ui/BottomNav.tsx:144 | an item highlighted while loading is still highlighted once the role is known |
| BottomNav.ActiveOnOwnSection | src/components/ui/BottomNav.tsx:167-172 | an item is highlighted on its own page, and the contribute, manager and reporter items on every page below theirs |
| BottomNav.ActivePathShape | src/components/ui/BottomNav.tsx:167-172 | Stations is highlighted only on "/", and any other item only on a path in its own section |
| BottomNav.ActiveItemsDisjoint | src/components/ui/BottomNav.tsx:167-172 | two different items are never highlighted on the same path |
| BottomNav.AtMostOneActive | src/components/ui/BottomNav.tsx:166-185 | at most one item of the bar is highlighted at a time |
| StationCard.NatText | src/components/StationCard.tsx:26 | a number is written as a non-empty run of decimal digits without a leading zero |
| StationCard.NatTextReadsBack | src/components/StationCard.tsx:26 | the decimal digits written for a number read back as that number |
| StationCard.WaitingText | src/components/StationCard.tsx:24-28 | the waiting time is shown exactly when the row has a non-zero minimum and a non-zero maximum |
| StationCard.WaitingTextReadsBack | src/components/StationCard.tsx:26 | the waiting text is the minimum, a dash, the maximum and " min", and both numbers read back from it |
| StationCard.AvailabilityOf | src/components/StationCard.tsx:23 | the card knows an availability exactly when it has a status row |
| StationCard.ToneOf | src/components/StationCard.tsx:34-41 | the grey tone is used exactly when no availability is known |
| StationCard.StatusLineCases | src/components/StationCard.tsx:65-73 | an empty station shows "Statut: Carburant indisponible"; any other shows "Attente:" with the waiting time, or "Non précisée" without one |
| StationCard.ZeroMinimumHidden | src/components/StationCard.tsx:25 | a zero minimum waiting time is never shown: the card says the fuel is out or that the wait is not given |
| StationCard.IconOf | src/components/StationCard.tsx:30-32 | the default pump icon is shown exactly when no brand is found, and otherwise the brand's icon (or none) |
| StationCard.WrapperOf | src/components/StationCard.tsx:91-107 | a card with a click handler is clickable; otherwise it links to the given non-empty href, or to its station's page |
| StationCard.DefaultHrefShape | src/components/StationCard.tsx:101 | the default link is "/station/" followed by the station id |
| StationCard.Card | src/components/StationCard.tsx:22-108 | the brand line appears exactly when a brand is found and shows it; the footer appears exactly when there is a status row and shows its time and the distance |
| StationCard.CardWithoutRow | src/components/StationCard.tsx:22-87 | without a status row the card has no footer, no availability, the grey tone and "Attente: Non précisée" |
| Listing.Locate | src/app/page.tsx:128-137 | each station is paired with its own distance, in the order fetched |
| Listing.NearestWithin | src/app/page.tsx:138-139 | the list holds exactly the stations within the radius, each as often as fetched, sorted nearest first |
| Listing.NearestFirst | src/app/page.tsx:139 | in a list sorted by distance, each station is at least as near as every later one |
| Listing.ActiveWithinSound | src/app/page.tsx:119-139 | every listed station is an active station, at its own distance, within the radius, and the list is ordered by distance |
| Listing.ActiveWithinComplete | src/app/page.tsx:119-139 | every active station within the radius is listed at its distance |
| Listing.StationRows | src/app/page.tsx:145-149 | the station's status rows are exactly its own rows, newest first |
| Listing.Head | src/app/page.tsx:155 | `rows?.[0]` is absent exactly for an empty list, and otherwise the first row |
| Listing.HeadIsNewest | src/app/page.tsx:145-155 | the row shown for a station is one of its rows with none newer, and is absent exactly when it has none |
| Listing.SearchKeeps | src/app/page.tsx:215-224 | the search keeps the list's order and only drops entries; a blank term keeps all, and otherwise an entry is kept exactly when its name, brand, neighborhood or municipality contains the lower-cased term |
| Listing.SearchIgnoresCase | src/app/contribute/page.tsx:106-115 | searching with the lower-cased term gives the same list as with the term as typed |
| HomePage.LoadStations | src/app/page.tsx:109-170 | the loaded entries are the active stations within the radius, nearest first, each with its rows newest first and its newest row shown |
| HomePage.LoadedStations | src/app/page.tsx:119-158 | each loaded entry is an active station within the radius at its own distance, showing its newest row, and the entries are ordered by distance |
| HomePage.LoadedComplete | src/app/page.tsx:119-158 | every active station within the radius is loaded |
| HomePage.ForFuelAll | src/app/page.tsx:196-207 | the fuel choice is applied to each entry in place, keeping the list's length and order |
| HomePage.AllFuelsBlankSearch | src/app/page.tsx:194-227 | with every fuel and a blank search, the list shown is the list loaded |
| HomePage.FilteredStationsShape | src/app/page.tsx:194-227 | the list shown keeps the loaded order; with one fuel, a station is shown exactly when it has a row of that fuel and matches the search, and shows that row |
| HomePage.FilteredKeepsOrder | src/app/page.tsx:194-227 | the list shown is a subsequence of the loaded list after the fuel choice |
| HomePage.FilteredMembers | src/app/page.tsx:199-224 | with one fuel, a station is shown exactly when it has a row of that fuel and matches the search |
| HomePage.FilteredRows | src/app/page.tsx:199-204 | with one fuel, each station shown shows its first row of that fuel |
| ContributePage.FetchedRows | src/app/contribute/page.tsx:73-79 | the rows fetched are exactly those of the listed stations, newest first |
| ContributePage.FirstRowOf | src/app/contribute/page.tsx:80-84 | the row kept for a station is one of its rows, and none is kept exactly when it has none |
| ContributePage.FirstRowOfSnoc | src/app/contribute/page.tsx:80-84 | visiting one more row keeps the first row already seen and otherwise takes the new row if it is the station's |
| ContributePage.LatestStatusByStation | src/app/contribute/page.tsx:70-85 | the map built by the loop holds a station exactly when some row is its, and holds its first row |
| ContributePage.FirstOfSortedIsNewest | src/app/contribute/page.tsx:78-84 | in rows sorted newest first, a station's first row has none of its rows newer |
| ContributePage.NewestOfSameRows | src/app/contribute/page.tsx:73-84 | the newest row among fetched rows is the newest of the whole table when both hold the same rows of that station |
| ContributePage.FirstRowIsNewest | src/app/contribute/page.tsx:70-91 | each listed station shows one of its rows with none newer in the whole table, or none when it has no row |
| ContributePage.SortByDistancePermutes | src/app/contribute/page.tsx:92-96 | the sort by distance keeps every card, each as often |
| ContributePage.SortByDistanceOrder | src/app/contribute/page.tsx:92-96 | cards with a distance come first in increasing distance, then every card without one |
| ContributePage.SplitMultiset | src/app/contribute/page.tsx:92-96 | splitting cards by whether they have a distance loses and adds none |
| ContributePage.Cards | src/app/contribute/page.tsx:87-91 | each station gets one card, in order, showing its first fetched row |
| ContributePage.IdsOf | src/app/contribute/page.tsx:70 | the ids queried are the listed stations' ids, in order |
| ContributePage.ContributeStationsSound | src/app/contribute/page.tsx:34-104 | every card is of an active station and shows its newest row |
| ContributePage.ContributeStationsComplete | src/app/contribute/page.tsx:51-96 | every active station gets a card |
| TrustedPage.TrustedStations | src/app/trusted/page.tsx:78-120 | without a location every active station is listed in table order; with one, the active stations within 50 km, nearest first, at their distance; each with its newest row |
| TrustedPage.NearbyTrustedSound | src/app/trusted/page.tsx:88-101 | with a location, every listed station is active, within 50 km at its own distance, and the list is ordered by distance |
| TrustedPage.NearbyTrustedNewest | src/app/trusted/page.tsx:104-116 | each listed station shows one of its rows with none newer |
| TrustedPage.NearbyTrustedComplete | src/app/trusted/page.tsx:88-101 | with a location, every active station within 50 km is listed at its distance |
| TrustedPage.AllTrustedStations | src/app/trusted/page.tsx:79-116 | without a location the list is every active station in order, without distance, each showing its newest row |
| TrustedPage.QueryMatchesIsMatchesTerm | src/app/trusted/page.tsx:127-136 | for a non-empty query, the trusted page's match is the same as the other pages' search match |
| TrustedPage.FilteredStationsShape | src/app/trusted/page.tsx:127-136 | the filter keeps order, an empty query keeps every station (a query of spaces does not), and otherwise exactly the stations matching the lower-cased query |
| Profile.ChangePassword | src/app/profile/page.tsx:85-143 | the sign-in and update are reached exactly when the form passes every check; the password changes exactly when the form passes and both calls succeed; the update fails exactly when sign-in succeeds and the update reports an error, whose message the outcome keeps |
| Profile.RefusalIgnoresAuth | src/app/profile/page.tsx:86-105 | a form refused by the checks gets the same answer whatever the authentication service would say |
| Profile.FirstFailureReported | src/app/profile/page.tsx:86-105 | the checks run in order (fields filled, at least 6 characters, confirmation equal, new differs from current) and the first one failing is the one reported |
| Profile.MessageInjective | src/app/profile/page.tsx:86-139 | different outcomes show different messages, except that two failed updates look alike when their errors show the same detail |
| Profile.UpdateFailedShowsError | src/app/profile/page.tsx:137-139 | a failed update shows "Erreur lors du changement: " followed by the error's own message, or by "Erreur inconnue" when the message is empty |
| Profile.CanChangePasswordRoles | src/app/profile/page.tsx:145 | the password form is offered exactly to trusted reporters and station managers |
| Onboarding.MessageTextInjective | src/app/onboarding/page.tsx:63-90 | different validation messages have different texts |
| Onboarding.MessageLength | src/app/onboarding/page.tsx:63-90 | each message text has its stated length |
| Onboarding.PlainJoin | src/app/onboarding/page.tsx:68 | joining two runs free of whitespace and '@' around such a character gives such a run |
| Onboarding.IsEmailMatches | src/app/onboarding/page.tsx:68 | an address accepted by the email check has the shape `local@domain.suffix`, each part non-empty and free of whitespace and '@' |
| Onboarding.MatchesIsEmail | src/app/onboarding/page.tsx:68 | every address of that shape is accepted by the email check |
| Onboarding.IsEmailIff | src/app/onboarding/page.tsx:68 | the email check accepts exactly the addresses the pattern `^[^\s@]+@[^\s@]+\.[^\s@]+$` matches |
| Onboarding.PhoneShape | src/app/onboarding/page.tsx:72 | an accepted phone number (spaces removed) is 8 to 16 characters long, all digits except an optional leading '+' |
| Onboarding.StrongPasswordOneLine | src/app/onboarding/page.tsx:80 | on a one-line password, the lookahead test holds exactly when it has a lower-case letter, an upper-case letter and a digit |
| Onboarding.EmptyMapIff | src/app/onboarding/page.tsx:89 | no error keys means the error map is empty |
| Onboarding.EmailCheck | src/app/onboarding/page.tsx:66-70 | the email passes exactly when it is not blank and matches the pattern; otherwise the error is "required" for a blank one and "invalid" for the rest |
| Onboarding.PhoneCheck | src/app/onboarding/page.tsx:72-74 | the phone passes exactly when it is empty or, spaces removed, a valid number; otherwise the error is "invalid" |
| Onboarding.PasswordCheck | src/app/onboarding/page.tsx:76-82 | the password passes exactly when it is non-empty, at least 8 UTF-16 units long and strong; otherwise the first failing check gives the error |
| Onboarding.ConfirmCheck | src/app/onboarding/page.tsx:84-86 | the confirmation passes exactly when it equals the password |
| Onboarding.ErrorsOfFields | src/app/onboarding/page.tsx:63-88 | a field has an error exactly when its check fails, and the error recorded is that check's message |
| Onboarding.NoErrorsIffAcceptable | src/app/onboarding/page.tsx:63-89 | the error map is empty exactly when every field passes |
| Onboarding.ValidateForm | src/app/onboarding/page.tsx:63-90 | the errors are those of the form's fields, and the form is valid exactly when there are none, that is exactly when every field passes |
| Admin.Headers | src/app/admin/page.tsx:467 | there is one header per comma-separated cell of the first line, each trimmed and lower-cased |
| Admin.Cells | src/app/admin/page.tsx:478 | there is one value per comma-separated cell of a line, each trimmed |
| Admin.ColumnOf | src/app/admin/page.tsx:468-470 | `indexOf` finds a column holding the header name, and finds none exactly when no header has that name |
| Admin.RowUsers | src/app/admin/page.tsx:477-483 | each data line becomes one user, in order |
| Admin.ParseCsvRefusals | src/app/admin/page.tsx:458-475 | blank content is refused as empty, and otherwise the import is refused exactly when the header lacks the email or the role column |
| Admin.CellTrimmed | src/app/admin/page.tsx:478-481 | every value read from a line is already trimmed |
| Admin.RowUserTrimmed | src/app/admin/page.tsx:477-483 | a user's values are trimmed, a present station id is non-empty, and there is no station id without a station column |
| Admin.DataUsersShape | src/app/admin/page.tsx:477-484 | the users sent are the rows with a non-empty email, in order, no more than the lines, with trimmed values |
| Admin.CsvUsers | src/app/admin/page.tsx:458-484 | an accepted import sends fewer users than it has lines, each with a non-empty email and trimmed values |
| Admin.StationsWith | src/app/admin/page.tsx:227-232 | no more stations are counted with an availability than there are stations |
| Admin.CountedInBoth | src/app/admin/page.tsx:227-232 | a station with both an available and an empty row is counted both with fuel and out, so the two counts may exceed the station total |
| Admin.StationsNoUpdate | src/app/admin/page.tsx:243-245 | no more stations are counted as not updated than there are stations |
| Admin.NoRowsNoUpdate | src/app/admin/page.tsx:243-245 | when no station has a row written within the hour, whether because it has no row or only older ones, every station counts as not updated |
| Admin.FreshRowCounts | src/app/admin/page.tsx:243-245 | when every station has a row written in the last hour, no station counts as not updated |
| Admin.WaitingTimes | src/app/admin/page.tsx:234-236 | one waiting time is gathered per row with a non-null maximum, every such maximum is among them, each gathered value is some row's maximum, and none are gathered when no row has one |
| Admin.WaitingTimesMultiplicity | src/app/admin/page.tsx:234-236 | each value occurs among the gathered waiting times exactly as often as status rows carry it as their `waiting_time_max`, so the average and peak are taken over the rows' values with their multiplicity |
| Admin.MaxOf | src/app/admin/page.tsx:241 | the peak is at least every waiting time and is one of them |
| Admin.SumAtMost | src/app/admin/page.tsx:239 | a sum of values each at most a bound is at most the count times the bound |
| Admin.AverageAtMostPeak | src/app/admin/page.tsx:234-241 | the rounded average never exceeds the peak, and both are 0 when no row has a waiting time |
| Admin.MeanAtMost | src/app/admin/page.tsx:239 | the rounded mean of values at most a bound is at most that bound |
| Admin.FuelPercentageChange | src/app/admin/page.tsx:266-268 | the change is 0 when yesterday had no station with fuel |
| Admin.FuelPercentageChangeSign | src/app/admin/page.tsx:266-268 | the change has the sign of today's count minus yesterday's, is 0 for equal counts, and never falls below -100 |
| Admin.DashboardStats | src/app/admin/page.tsx:197-279 | the stations with fuel, out and not updated number at most the active stations, the average wait is at most the peak, and the fuel change is at least -100 |
| Admin.ResolveAlert | src/app/admin/page.tsx:337-344 | the chosen alert becomes resolved at the current time, an unknown alert changes nothing, and no other row or table changes |
| Admin.ResolvedAlertClosed | src/app/admin/page.tsx:337-341 | the resolved alert is closed and no station's open count of any kind grows |
| AdminUsersRoute.TokenOf | src/app/api/admin/users/route.ts:65-66 | a token is read exactly when the request has an authorization header |
| AdminUsersRoute.BearerToken | src/app/api/admin/users/route.ts:66 | the token of "Bearer x" is x |
| AdminUsersRoute.PostGate | src/app/api/admin/users/route.ts:64-103 | the request goes on exactly when it carries a token of a signed-in user whose single profile is an admin; otherwise it is refused with 401, 403 or 500, and with 401 when there is no token |
| AdminUsersRoute.NonAdminForbidden | src/app/api/admin/users/route.ts:99-103 | a signed-in caller whose single profile is not an admin is refused with 403 |
| AdminUsersRoute.ListUsers | src/app/api/admin/users/route.ts:17-59 | the profiles are listed exactly for an admin caller with a token when the listing query succeeds, and every profile is listed; a failed listing query for an admin answers 500 with the query's error message; any other caller is refused with 401 or 403 |
| AdminUsersRoute.TempPassword | src/app/api/admin/users/route.ts:127-128 | a given password is used as it is; otherwise a generated one ending in "A1!" |
| AdminUsersRoute.MissingFieldsFail | src/app/api/admin/users/route.ts:117-124 | a user without an email or a role fails with "Email and role are required" and creates nothing |
| AdminUsersRoute.RefusedProfileRollsBack | src/app/api/admin/users/route.ts:154-163 | when the profile insert fails, the account just created is removed and the user fails with the insert's message |
| AdminUsersRoute.StepSucceeds | src/app/api/admin/users/route.ts:114-170 | a user succeeds exactly when it has an email and a role and both the account and the profile are created; exactly then one account and one profile are added, the profile tied to the account with the email, the upper-cased role, verified and bound to change its password |
| AdminUsersRoute.SuccessPassword | src/app/api/admin/users/route.ts:165-170 | a success reports the given password both as temporary and as password, or a generated one ending in "A1!" as temporary only |
| AdminUsersRoute.UpperCasedRole | src/app/api/admin/users/route.ts:148 | a role written in any mix of cases is stored as its canonical upper-case name |
| AdminUsersRoute.Steps | src/app/api/admin/users/route.ts:114-178 | there is one step per user, each decided by that user and the services' answers for it |
| AdminUsersRoute.AccountsOf | src/app/api/admin/users/route.ts:129-163 | no more accounts are kept than users were processed |
| AdminUsersRoute.ProfilesOf | src/app/api/admin/users/route.ts:145-163 | no more profiles are added than users were processed |
| AdminUsersRoute.AccountsOfSteps | src/app/api/admin/users/route.ts:129-163 | one account is kept for each step that keeps one, each account kept is some step's, and every step's account is kept |
| AdminUsersRoute.ProfilesOfSteps | src/app/api/admin/users/route.ts:145-163 | one profile is added for each step that adds one, each profile added is some step's, and every step's profile is added |
| AdminUsersRoute.ResultsFollowInput | src/app/api/admin/users/route.ts:114-178 | each result carries its user's email, or "unknown" when it has none |
| AdminUsersRoute.StepsPaired | src/app/api/admin/users/route.ts:144-163 | each user leaves an account exactly when it leaves a profile, and the profile belongs to that account |
| AdminUsersRoute.ProfilesMatchAccounts | src/app/api/admin/users/route.ts:144-163 | across the batch, the accounts kept and the profiles added are as many and pair up in order |
| AdminUsersRoute.CreateUser | src/app/api/admin/users/route.ts:115-177 | one user's processing returns its result and adds at most its own account and profile, touching no other table |
| AdminUsersRoute.CreateUsers | src/app/api/admin/users/route.ts:112-178 | the loop returns one result per user in order and adds exactly the accounts and profiles of the successful users |
| AdminUsersRoute.Post | src/app/api/admin/users/route.ts:62-185 | a refused caller gets the gate's answer and changes nothing; a missing or empty users array gets 400 and changes nothing; otherwise the answer lists each user's result and the successful users' accounts and profiles are added |
| AdminUsersRoute.SingleIndexOnly | src/app/api/admin/users/route.ts:88-92 | the profile `.single()` returns is the only profile of the signed-in user |
| AdminUsersRoute.CountTwoAtLeast | src/app/api/admin/users/route.ts:88-92 | two distinct profiles of the same user make `.single()` fail |
| ImportStations.MapFuelType | scripts/import-stations.ts:42-53 | every report leads to at least one fuel type, and to no fuel type twice |
| ImportStations.FuelTypeKey | scripts/import-stations.ts:43-49 | the key naming a fuel type in the reports is plain lower-case ASCII |
| ImportStations.MapFuelTypeKey | scripts/import-stations.ts:44-47 | "essence" maps to essence alone and "diesel" to gasoil alone |
| ImportStations.MapFuelTypeIgnoresCase | scripts/import-stations.ts:43 | the case of the report's fuel type does not matter |
| ImportStations.MapFuelTypeBoth | scripts/import-stations.ts:48-49 | "both", in any case, maps to essence and then gasoil |
| ImportStations.MapFuelTypeDefault | scripts/import-stations.ts:50-51 | an unknown fuel type maps to essence alone |
| ImportStations.MapFuelTypeShapes | scripts/import-stations.ts:42-53 | the fuel types are essence alone, gasoil alone, or both in that order |
| ImportStations.AvailabilityKey | scripts/import-stations.ts:57-63 | the key naming an availability in the reports is plain lower-case ASCII |
| ImportStations.MapAvailabilityKey | scripts/import-stations.ts:56-63 | "available", "limited" and "out" map to their own availability |
| ImportStations.MapAvailabilityIgnoresCase | scripts/import-stations.ts:57 | the case of the report's status does not matter |
| ImportStations.MapAvailabilityDefault | scripts/import-stations.ts:64-65 | an unknown status maps to out |
| ImportStations.ExistingStation | scripts/import-stations.ts:99-105 | a station found by name and municipality is one of the stored stations |
| ImportStations.Repeat | scripts/import-stations.ts:186-222 | the repeated contribution appears once per fuel type and nothing else does |
| ImportStations.NoWriteWithoutStation | scripts/import-stations.ts:93-227 | a station without a name or with a missing or zero coordinate is skipped, and a failed station write is an error; neither changes any table |
| ImportStations.ImportOneSkips | scripts/import-stations.ts:93-97 | a station is counted as skipped exactly when it lacks a name or a non-zero coordinate |
| ImportStations.StationWritten | scripts/import-stations.ts:99-178 | a station whose name and municipality match exactly one stored station updates that station in place, keeping its id; otherwise a new station is appended |
| ImportStations.ImportOneStations | scripts/import-stations.ts:139-178 | the station found is overwritten with the imported fields under its own id, and a station not found is appended under a fresh id |
| ImportStations.MunicipalityDefault | scripts/import-stations.ts:104-142 | the municipality is the trimmed commune, or "Bamako" when there is none |
| ImportStations.NeighborhoodDefault | scripts/import-stations.ts:143 | the neighborhood is the trimmed quartier, else the trimmed address, else "Inconnu" |
| ImportStations.ImportBrandAgrees | scripts/import-stations.ts:108-137 | the script picks the same brand as the brand extraction used by the station pages, no brand standing for an empty one |
| ImportStations.BrandRulesAgree | scripts/import-stations.ts:108-137 | for any list of "name followed by whitespace" patterns, the script's brand and the shared extraction agree |
| ImportStations.ImportedStatusIsUpsert | scripts/import-stations.ts:188-212 | writing one fuel's status updates the pair's row or inserts one, exactly as the contribute route's upsert does |
| ImportStations.ImportFuelsIsReportAll | scripts/import-stations.ts:186-212 | writing every mapped fuel's status is the contribute route's per-fuel write, and keeps at most one row per station and fuel |
| ImportStations.ImportOneReport | scripts/import-stations.ts:180-222 | a report sets the statuses of its fuel types and appends one contribution per fuel type, dated by the report or by now |
| ImportStations.ReportRecorded | scripts/import-stations.ts:180-222 | after a report every mapped fuel of the station holds the report's availability and time, other stations' rows are untouched, and rows are only added for this station |
| ImportStations.FuelsReported | scripts/import-stations.ts:186-212 | each fuel written holds the report afterwards |
| ImportStations.ImportOneKeepsUnique | scripts/import-stations.ts:186-212 | importing a station keeps at most one status row per station and fuel |
| ImportStations.ImportOneContributions | scripts/import-stations.ts:214-221 | importing a station only appends contributions, each public and anonymous |
| ImportStations.ImportAllSummary | scripts/import-stations.ts:84-234 | the four counters add up to the number of stations fetched, and the skipped counter is the number of stations lacking a required field |
| ImportStations.ImportAllContributions | scripts/import-stations.ts:90-228 | the whole import only appends contributions, each public and anonymous |
| ImportStations.ImportAllUnique | scripts/import-stations.ts:90-228 | the whole import keeps at most one status row per station and fuel |
| ImportStations.ImportAllTables | scripts/import-stations.ts:90-228 | the whole import keeps the statuses unique and leaves the earlier contributions as they were, appending only public anonymous ones |
| ImportStations.MatchBrand | scripts/import-stations.ts:130-136 | the loop over the patterns yields the capitalised first pattern the name starts with, or nothing |
| ImportStations.WriteStation | scripts/import-stations.ts:99-178 | the station table becomes the written stations, the station's id and its counter are reported, and no other table changes |
| ImportStations.RecordReport | scripts/import-stations.ts:180-222 | the statuses and contributions become those of the report's import, and no other table changes |
| ImportStations.ImportStation | scripts/import-stations.ts:91-227 | one station's import leaves the tables and outcome of the model's import step, and the alerts and users untouched |
| ImportStations.ImportAllStations | scripts/import-stations.ts:84-234 | the loop leaves the tables and the four counters of the whole import, keeps the database invariant, and does not touch alerts or users |

## Left out

- Rendering, hooks, toasts, dialogs, the map and its marker components, and realtime subscriptions: presentation only. The model covers the lists, texts and choices they display.
- Distances: `calculateDistance` and `formatDistance` are trigonometry and floating point. A station's distance is an input to the list filters.
- `formatTimeAgo`: it relies on the date-fns library. The manager page's own `getTimeAgo` is modelled.
- Floating point: the reliability score, the dashboard's average waiting time and its fuel percentage change use exact `real` arithmetic, with `Math.round` as round half up. IEEE double rounding is not modelled.
- Admin.FuelPercentageChange: computed in exact reals, it can differ by one from the source's double result when the exact value is halfway. With 29 stations today against 40 yesterday, the source rounds -27.500000000000004 to -28 where the model gives -27. With 63 against 40 it rounds 57.49999999999999 to 57 where the model gives 58. Its sign, its zero case and its floor of -100 hold either way.
- Column defaults: some inserts leave columns out, and the database fills them; the model assumes those defaults. The status row inserts of the contribute route (src/app/api/contribute/route.ts:69-75) and the manager page (src/app/manager/page.tsx:255-262) leave out some columns: each row gets the current time as `updated_at`, no pump count and a reliability score of 0, and the contribute route's row also gets no waiting times. The contribution inserts (src/app/api/contribute/route.ts:34-40, src/app/manager/page.tsx:274-278) get the current time as `created_at`. The import script's status insert (scripts/import-stations.ts:195-211) gets no pump count, no waiting times and a reliability score of 0. The three alert inserts of the alert sweep (src/lib/business-logic.ts:187-191, 206-210, 234-238) get the current time as `created_at`, which the admin page then sorts by, and no `resolved_at`; `BusinessLogic.NewAlert` fixes these two columns, and the contracts that call the new alerts "created now" rest on that default.
- Concurrency: every read-then-write upsert and the alert dedup check-then-insert is modelled as sequential. Races between concurrent requests and `Promise.all` interleavings are not modelled.
- The database client, row-level security and sessions: tables are sequences, and the auth provider's answers are inputs.
- Write errors the source does not check are not modelled: these writes are modelled as always landing. They are:
  - the contribute route's status updates and inserts;
  - the recompute route's two updates;
  - the import script's status update or insert and its contribution insert (scripts/import-stations.ts:203-221);
  - the manager's OFFICIAL contribution insert (src/app/manager/page.tsx:274-278);
  - the three alert inserts of `generateAlerts` (src/lib/business-logic.ts:187-191, 206-210, 234-238), on which BusinessLogic.GateRaises, BusinessLogic.StationStepRaises and BusinessLogic.SweepRaisesDue rely;
  - the rollback `deleteUser` of the admin users route (src/app/api/admin/users/route.ts:156), on which AdminUsersRoute.RefusedProfileRollsBack relies;
  - the alert update of `resolveAlert` (src/app/admin/page.tsx:338-341), on which Admin.ResolveAlert relies.
- BusinessLogic.SourceWeight: the `|| 1` fallback for an unknown source type (src/lib/business-logic.ts:127) cannot arise, because the source type is the closed enumeration of src/lib/supabase/types.ts.
- Exceptions: exceptions thrown inside the admin users loop, and a request body that is not JSON, are not modelled. Nor is the missing service key of the admin users route (src/app/api/admin/users/route.ts:7-9), which makes both endpoints answer 500, nor the manager page's per-fuel `catch` and its "Erreur inattendue" result (src/app/manager/page.tsx:282-287). The listing query's error on the users `GET` is modelled (`AdminUsersRoute.ListUsers`).
- The random part of a generated password, the row ids the database assigns, and console output: generated values are inputs, and logging is dropped.
- Sort ties: rows with equal keys keep their table order, as in a stable sort. The database's own tie order is not modelled.
- The listing of users by the admin users route: its `created_at` order is not modelled, because the profile rows here carry no creation time.
- The contribute page's stations: their `.order('name')` is not modelled. The stations are taken in the order fetched, and the distance sort decides the cards' order when a position is known.
- Onboarding messages: each is an enumeration value, mapped to its French text by a function.
- Case mapping: upper- and lower-casing cover ASCII and Latin-1 only, and regular-expression case-insensitivity covers ASCII letters.
- `parseGoogleMapsUrl`, the Google Maps URL resolver route and the map picker: they rely on URL decoding, float parsing and network search.
- The 24-hour waiting-time chart, the range slider's timers, the install prompt, service-worker registration and browser notifications: wall-clock and browser plumbing.
- The login page and the station, trusted and updates detail pages: they are not part of this model.
