# Race-day bookkeeping of the race management system, in Dafny

This project models the backend of a race-event management application.
Administrators create races from a starting grid. They move racers between
positions, record laps and pit stops, mark retirements (DNF) and finalize
races. Team owners register teams and up to two racers per team. Every race
command appends one event to a log that drives the race history and the live
leaderboard.

The data lives in two immutable records. The race `State` holds a map of
races plus sequences of race entries, lap times, pit stops and events. The
team and racer `Registry` holds maps of teams and racers. No command touches
both. Each command handler is a pure function from its record and the request
body to `Ok(new record)` or `Err(code)`. The codes are 400, 403, 404 and 500. An error
changes nothing.

Modules:

- `Common` (common.dfy): optional body fields, error replies, JavaScript
  truthiness and `String.prototype.trim`.
- `RaceRecords` (race_records.dfy): the Race, RaceEntry, LapTime, PitStop and
  Event records, their enumerations and schema defaults. The event payload is
  a tagged union with one variant per event type.
- `RaceController` (race_controller.dfy): createRace, updatePosition,
  markLap, markPitStop, markDNF and finalizeRace, plus the reads
  getRaceEntries and getEvents.
- `RaceLog` (race_log.dfy): all race commands behind one dispatcher, runs of
  many commands, and the invariants of the event log and race status.
- `Gaps` (gaps.dfy): the gap-to-leader calculator.
- `Registry` (registry.dfy): createTeam, updateTeam, createRacer and
  updateRacer.
- `GridEditor` (grid_editor.dfy): the starting-grid editor of the race
  creation form and its submit checks.
- `RaceCreateFlow` (race_create_flow.dfy): the form and the createRace
  handler together.
- `Scenarios` (scenarios.dfy): a worked race day at Monza.

Modelling conventions:

- A request body field the client leaves out is falsy in JavaScript. For ids
  and strings the model represents it as the empty string, which takes the
  same branch in every handler. Numeric fields are `Option<int>` or
  `Option<real>`. Their falsy values are `None` and `Some(0)`, because
  Mongoose's `required` accepts 0 for a Number but not a missing value.
- The clock is a parameter `now`, in milliseconds. Ids the store generates
  are parameters too, and each must be fresh.
- `RaceEntry.findOne({race, racer})` is the first matching entry in storage
  order (`FindEntry`). createRace does not reject repeated racers, so two
  entries can match.
- A failure inside a handler's `try` block is answered with 500 by its
  `catch`. The model returns `Err(ServerError)` for each such failure it
  covers:
  - createRace: a venue of only white space passes the 400 checks but trims
    to "", which fails the schema's required venue. A non-empty
    `defaultTyreType` outside the tyre enum fails when the entries are
    inserted.
  - createTeam: a missing name or country fails the Team schema's required
    fields.
  - updateTeam: a rename onto a name another team holds violates the unique
    index on team names (backend/models/Team.js:4) when the team is saved.
  - createRacer: a missing name, age, country or racing number fails the
    Racer schema's required fields.
  - updateRacer: a racer whose team record is gone makes the owner check
    read a field of `null`, which throws.
- Lap and pit times are exact reals.

Behaviours of the code that a reader might not expect, all modelled as
written:

- No handler starts a race. `startRace` is imported and routed in
  backend/routes/raceRoutes.js, but the controller does not define it. No
  race ever becomes `ongoing` (`RaceLog.NothingStartsRace`). Read as
  written, Express also refuses an undefined handler when the route is
  registered (backend/routes/raceRoutes.js:28). That would make loading the
  race routes throw at server start. The model assumes the other race
  handlers are reachable.
- finalizeRace completes a race from any status, including `completed`, and
  logs another `race_completed` event each time (`RaceLog.FinalizeTwiceAccepted`).
- createRace does not check the grid for repeated or unknown racers
  (`RaceCreateFlow.BackendAcceptsRepeatedRacer`). It does not validate
  `defaultTyreType` before saving the race. Its `race_created` payload holds
  the untrimmed venue and no tyre type.
- updatePosition accepts any non-zero integer, including negative ones.
- markLap and markPitStop never answer 404. Neither looks up the race.
  markLap does not look up the entry either. markPitStop looks it up only to
  set the tyre, and goes on without it when there is none.
- A repeated DNF is accepted and logged again.

## Model

| member | source | states |
|---|---|---|
| `Common.Trim` | frontend/src/pages/Admin/RaceCreate.js:65 | The trimmed venue neither starts nor ends with white space and is never longer than the input |
| `Common.TrimIsSlice` | backend/controllers/raceController.js:73 | The trimmed venue is a contiguous slice of the input, and only white space is cut away on either side |
| `Common.TrimEmptyIffBlank` | frontend/src/pages/Admin/RaceCreate.js:65-69 | A venue trims to the empty string exactly when it consists only of white space |
| `Common.TrimIdempotent` | frontend/src/pages/Admin/RaceCreate.js:85 | Trimming an already trimmed venue changes nothing, so the backend's second trim keeps the form's venue |
| `Common.FilterCounts` | frontend/src/pages/Admin/RaceCreate.js:35 | A filter keeps every copy of each element that passes its test and no other element |
| `Common.FilterConcat` | frontend/src/pages/Admin/RaceCreate.js:35 | A filter distributes over concatenation, so the elements it keeps stay in their original order |
| `RaceRecords.ParseTyre` | backend/models/RaceEntry.js:7 | A tyre string is accepted exactly when it is "soft", "medium" or "hard" |
| `RaceRecords.ParseTyreName` | backend/models/PitStop.js:6 | Every tyre compound's stored name reads back as that same compound |
| `RaceRecords.TyreNameParse` | backend/models/RaceEntry.js:7 | Every accepted tyre string is exactly the stored name of the compound it parses to, so parsing and naming are inverse on the enum |
| `RaceRecords.NewRace` | backend/models/Race.js:3-8 | A new race keeps its venue and lap count, is stamped with the creation time, and its status defaults to pending when none is given |
| `RaceRecords.NewEntry` | backend/models/RaceEntry.js:3-9 | A new entry keeps race, racer, position and tyre, and its status defaults to active when none is given |
| `RaceController.FindEntry` | backend/controllers/raceController.js:113 | The lookup returns the first entry for that race and racer, and finds none exactly when no entry matches |
| `RaceController.GridEntries` | backend/controllers/raceController.js:80-85 | A grid of N racers yields N entries; slot i holds grid[i] at position i+1 with the default tyre, and its status is active |
| `RaceController.DefaultTyre` | backend/controllers/raceController.js:84 | An absent default tyre means medium; any other string must name a compound |
| `RaceController.CreateRace` | backend/controllers/raceController.js:54-102 | Missing venue, laps or grid, a non-list grid, laps outside [1,200] or fewer than 2 slots each give 400 and create nothing; a blank venue or an unknown tyre gives 500; success happens exactly when none of these holds and adds one pending race with the trimmed venue, the N grid entries and exactly one race_created event with racerCount N and the untrimmed venue |
| `RaceController.UpdatePosition` | backend/controllers/raceController.js:104-140 | A missing or zero field gives 400 and no matching entry gives 404; on success only the first matching entry's position changes, tyre and status are kept, every other entry and record is unchanged, and one position_change event carries the old and new position |
| `RaceController.MarkLap` | backend/controllers/raceController.js:142-178 | The lap is accepted exactly when ids are present and 0 < lapTime <= 300; success appends one lap record and one lap_completed event and leaves races, entries and pit stops untouched |
| `RaceController.MarkPitStop` | backend/controllers/raceController.js:180-228 | The stop is accepted exactly when ids are present, the tyre is one of the three compounds and 0 < pitTime <= 60; success appends one pit stop and one pit_stop event, and changes only the first matching entry's tyre when such an entry exists, else no entry |
| `RaceController.MarkDnf` | backend/controllers/raceController.js:230-262 | Missing ids give 400 and no entry gives 404; on success only the first matching entry's status becomes DNF, position and tyre are kept, and one dnf event is logged |
| `RaceController.FinalizeRace` | backend/controllers/raceController.js:264-296 | No id gives 400 and an unknown race gives 404; otherwise that race alone becomes completed whatever its status, and one race_completed event is appended |
| `RaceController.InsertByPosition` | backend/controllers/raceController.js:45 | Inserting into an ordered list keeps it ordered by position, and the result holds exactly the old entries plus the new one |
| `RaceController.SortByPosition` | backend/controllers/raceController.js:45 | The sorted entries are ordered by position and are a permutation of the input |
| `RaceController.GetRaceEntries` | backend/controllers/raceController.js:34-52 | The read returns every copy of each of the race's entries and no other entry, in ascending position order |
| `RaceController.EventsOf` | backend/controllers/eventController.js:3-11 | The history holds every copy of each event filed under the race, repeats included, and no other event |
| `RaceController.EventsOfConcat` | backend/controllers/eventController.js:6 | The history of a log made of two parts is the first part's history followed by the second's, so events keep their log order |
| `RaceController.EventsOfAppend` | backend/controllers/eventController.js:6 | Appending an event to the log extends its own race's history by that event and leaves every other history unchanged |
| `RaceLog.ApplyAppendsOneEvent` | backend/controllers/raceController.js:54-296 | Every successful race command keeps the old log as a prefix and appends exactly one event, filed under its race, of its own type, stamped with the current time |
| `RaceLog.ApplyExtendsHistory` | backend/controllers/raceController.js:54-296 | A successful command adds its event to the history of its own race and to no other race's history |
| `RaceLog.ApplyKeepsLedgers` | backend/controllers/raceController.js:142-228 | Lap and pit-stop records are append-only; a lap is added exactly by markLap and a stop exactly by markPitStop |
| `RaceLog.ApplyKeepsEntryIdentity` | backend/controllers/raceController.js:104-262 | No command removes an entry or changes its race or racer, and only createRace adds entries |
| `RaceLog.NothingStartsRace` | backend/routes/raceRoutes.js:3-14 | Since no handler starts a race, no command makes a race ongoing |
| `RaceLog.StatusMoves` | backend/controllers/raceController.js:72-77 | A command keeps every race, new races start pending, and an existing race either keeps its status or becomes completed |
| `RaceLog.FinalizeTwiceAccepted` | backend/controllers/raceController.js:272-285 | Finalizing a completed race succeeds again and logs a second race_completed event |
| `RaceLog.AppendKeepsOrder` | backend/models/Event.js:19 | Appending an event stamped no earlier than any logged event keeps the log in creation-time order |
| `RaceLog.ApplyKeepsOrder` | backend/models/Event.js:19 | With a clock that does not run backwards, every command keeps the log in creation-time order |
| `RaceLog.HistoryOrdered` | backend/controllers/eventController.js:6 | On an ordered log, a race's events in log order are already in ascending creation time |
| `RaceLog.RunLogsEachSuccess` | backend/controllers/raceController.js:54-296 | After any sequence of commands, the log is the old log followed by exactly one event per successful command |
| `RaceLog.RunKeepsInvariants` | backend/models/Event.js:19 | A run with a clock that does not go backwards keeps the log time-ordered and never makes a race ongoing |
| `Gaps.LapsOf` | backend/utils/calculateGaps.js:4 | The laps read are every copy of each of the race's laps, repeats included, and no other lap |
| `Gaps.AccumulateIsTotals` | backend/utils/calculateGaps.js:8-11 | The running totals have a key for exactly the racers with a lap, and each holds the sum of that racer's lap times |
| `Gaps.MinTotal` | backend/utils/calculateGaps.js:13 | The leader time is one of the racers' totals and is no larger than any of them |
| `Gaps.TotalsKeys` | backend/utils/calculateGaps.js:4-11 | The totals over a race's laps are keyed by exactly the racers with a lap in that race |
| `Gaps.CalculateGaps` | backend/utils/calculateGaps.js:3-19 | The gaps have a key for exactly the racers with at least one lap in the race |
| `Gaps.GapIsTotalMinusLeader` | backend/utils/calculateGaps.js:13-16 | Each gap is the racer's lap-time sum minus the smallest sum, reached by a returned leader |
| `Gaps.GapsRankRacers` | backend/utils/calculateGaps.js:13-16 | Gaps are never negative; when any lap exists some racer has gap 0; a smaller total never has a larger gap |
| `Gaps.NoLapsNoGaps` | backend/utils/calculateGaps.js:8-18 | A race without laps has no gaps |
| `Registry.CreateTeam` | backend/controllers/teamController.js:4-22 | A taken name gives 400 and a missing name or country 500; success happens exactly otherwise, and adds one team owned by the caller and nothing else |
| `Registry.CreateTeamKeepsNamesUnique` | backend/controllers/teamController.js:7-8 | Creating a team keeps team names pairwise distinct |
| `Registry.UpdateTeam` | backend/controllers/teamController.js:33-50 | An unknown team gives 404 and a caller who is not the owner 403; a rename onto a name another team holds gives 500 through the unique index on team names; success happens exactly when none of these holds; name, logo and country are replaced only by non-empty values, the owner is unchanged and no other team changes |
| `Registry.UpdateTeamEmptyBodyKeepsRegistry` | backend/controllers/teamController.js:41-43 | An update by the owner with every field empty leaves the registry unchanged |
| `Registry.UpdateTeamKeepsRosters` | backend/controllers/teamController.js:33-50 | Updating a team moves no racer, so every roster and every racer's team reference survives |
| `Registry.UpdateTeamKeepsNamesUnique` | backend/models/Team.js:4 | A successful team update keeps team names pairwise distinct |
| `Registry.UpdateTeamRefusesTakenName` | backend/controllers/teamController.js:41-48 | Renaming team Blue to the name Red, which another team holds, is answered with 500 |
| `Registry.CreateRacer` | backend/controllers/racerController.js:4-28 | An unknown team gives 404, a non-owner 403 and a team with 2 or more racers 400; a missing name, age, country or racing number then gives 500; success happens exactly when the caller owns an existing team with fewer than 2 racers and name, age, country and racing number are all given, and adds exactly one racer of that team with the given fields and nothing else |
| `Registry.CreateRacerRosters` | backend/controllers/racerController.js:11-22 | A new racer joins its team's roster, which grows by one, and every other roster is unchanged |
| `Registry.CreateRacerKeepsCapacity` | backend/controllers/racerController.js:11-12 | Creating a racer keeps every team at two racers or fewer and every racer on an existing team |
| `Registry.UpdateRacer` | backend/controllers/racerController.js:39-58 | An unknown racer gives 404, a racer whose team record is gone 500 and a non-owner 403; success happens exactly when the racer's team exists and belongs to the caller; each field is replaced only by a truthy value, the team never changes and no other racer changes |
| `Registry.UpdateRacerKeepsRosters` | backend/controllers/racerController.js:47-52 | Updating a racer leaves every team's roster, and so the two-racer limit, intact |
| `Registry.UpdateRacerNoServerError` | backend/controllers/racerController.js:43-45 | When every racer's team exists, updateRacer never fails on the owner lookup |
| `GridEditor.Without` | frontend/src/pages/Admin/RaceCreate.js:35 | Filtering removes every copy of the racer and keeps every copy of every other racer; it never grows the grid, leaves a grid without the racer unchanged, and keeps a duplicate-free grid duplicate-free |
| `GridEditor.WithoutConcat` | frontend/src/pages/Admin/RaceCreate.js:35 | Filtering works part by part, so the racers kept stay in their grid order |
| `GridEditor.WithoutShrinks` | frontend/src/pages/Admin/RaceCreate.js:34-35 | Removing a racer that is in the grid makes the grid shorter |
| `GridEditor.SelectRacer` | frontend/src/pages/Admin/RaceCreate.js:32-40 | Selection toggles the racer's membership and no other racer's; a racer in the grid is removed by the order-keeping filter, and a new racer is appended at the end behind the unchanged grid |
| `GridEditor.SelectKeepsNoDuplicates` | frontend/src/pages/Admin/RaceCreate.js:32-40 | From a duplicate-free grid, selection keeps the grid duplicate-free |
| `GridEditor.SelectTwiceRestores` | frontend/src/pages/Admin/RaceCreate.js:32-40 | Selecting a racer not in the grid twice gives back the original grid |
| `GridEditor.MoveUp` | frontend/src/pages/Admin/RaceCreate.js:42-48 | Moving slot i up swaps slots i-1 and i when i > 0, leaves the grid unchanged at i = 0, and always yields a permutation of the same length |
| `GridEditor.MoveDown` | frontend/src/pages/Admin/RaceCreate.js:50-56 | Moving slot i down swaps slots i and i+1 when i is not last, leaves the grid unchanged otherwise, and always yields a permutation of the same length |
| `GridEditor.MoveUpThenDown` | frontend/src/pages/Admin/RaceCreate.js:42-56 | moveRacerUp(i) followed by moveRacerDown(i-1) restores the grid |
| `GridEditor.MoveDownThenUp` | frontend/src/pages/Admin/RaceCreate.js:42-56 | moveRacerDown(i) followed by moveRacerUp(i+1) restores the grid |
| `GridEditor.SubMultisetKeepsNoDuplicates` | frontend/src/pages/Admin/RaceCreate.js:35-56 | A grid that holds no racer more often than a duplicate-free grid does, such as a permutation after a move or the rest after a removal, is duplicate-free |
| `GridEditor.EditingKeepsNoDuplicates` | frontend/src/pages/Admin/RaceCreate.js:32-56 | Any sequence of selections and moves keeps a duplicate-free grid duplicate-free |
| `GridEditor.Submit` | frontend/src/pages/Admin/RaceCreate.js:58-89 | The form is blocked exactly when the venue is blank, the lap count is empty or outside [1,200], or the grid has fewer than 2 racers, with the reason of the first failing check (venue, then laps, then racers); otherwise it sends the trimmed venue and the grid in its current order |
| `RaceCreateFlow.SubmittedRaceAccepted` | frontend/src/pages/Admin/RaceCreate.js:84-92 | Every body the form sends is accepted by createRace, which stores the trimmed venue and logs one race_created event |
| `RaceCreateFlow.CreatedPositions` | backend/controllers/raceController.js:80-85 | The created entries' positions, in grid order, are exactly 1 through N |
| `RaceCreateFlow.CreatedRacersDistinct` | backend/controllers/raceController.js:80-85 | The created entries name distinct racers exactly when the grid has no repeats |
| `RaceCreateFlow.EditedGridHasDistinctRacers` | frontend/src/pages/Admin/RaceCreate.js:32-92 | A race created from a grid built in the editor has entries that name pairwise distinct racers |
| `RaceCreateFlow.BackendAcceptsRepeatedRacer` | backend/controllers/raceController.js:59-87 | createRace accepts a grid naming one racer twice and creates two entries for that racer |
| `RaceCreateFlow.BlankVenueRefusedDifferently` | backend/controllers/raceController.js:59-77 | A venue of only spaces passes the 400 checks but the required venue fails with 500, while the form blocks it |
| `Scenarios.MonzaCreated` | backend/controllers/raceController.js:54-102 | Monza with 50 laps and grid [A, B, C] on soft tyres gives a pending race, entries at positions 1 to 3 and one race_created event |
| `Scenarios.MonzaRetirement` | backend/controllers/raceController.js:230-262 | B's retirement keeps its position and tyre and drops the active count from 3 to 2 |
| `Scenarios.MonzaPositionChanges` | backend/controllers/raceController.js:104-140 | Moving A to 2 and then to 5 leaves A at 5 and logs two position changes, the second from 2 to 5 |

## Left out

- The Express server, CORS, request logging, debug routes and the database connection (backend/server.js). These are I/O plumbing.
- The live broadcast (`req.io.emit`) and its listeners. It is fire-and-forget network fan-out; the model keeps only the event append it follows.
- Login and registration (authController.js). They rest on bcrypt hashing and JWT signing, which are foreign library calls. The role checks of the route middleware are left out too, as the middleware is not part of this model; the caller's id is a plain parameter.
- getRaces, getRaceById, getRacers and getTeams. These are plain reads with no logic beyond a sort or a lookup.
- `populate` joins. getRaceEntries returns bare entries without racer and team display fields. calculateGaps does not model the failure when a lap's racer document was deleted.
- `parseInt`/`parseFloat` coercion, string-typed numbers, NaN and Infinity. The model assumes numeric inputs.
- Malformed ids, which make the store throw a cast error (500). Ids are opaque strings.
- Partial writes. The model treats each command as atomic. In the code, createRace saves the race before the entry insert can fail, and markPitStop saves the stop before updating the entry.
- Concurrency between simultaneous requests. The code has no locking, and the model is sequential.
- `Team.findOne({ name })` with the name left out. Mongoose's handling of an undefined filter value is not modelled; an empty name is answered by the required-field validation (500).
- Rebuilding entry state by replaying the event log. The `race_created` payload carries no grid, so the log cannot reproduce the entries.
- Gaps.CalculateGaps: returns exact real differences, not the `toFixed(3)` strings with three decimals, because floating point formatting is outside the model.
- RaceController.EventsOf: returns the race's events in log order rather than sorting them by creation time, because the sort's tie order is unspecified; `RaceLog.HistoryOrdered` shows the two agree whenever the log is in time order, which `RaceLog.RunKeepsInvariants` guarantees for a clock that does not run backwards.
- RaceController.GetRaceEntries: fixes no order among entries with equal positions, because the store's sort leaves that order unspecified.
- GridEditor.Submit: takes the lap field as an already parsed number (`None` while empty), because `parseInt` string coercion is not modelled.
- The React rendering, the other pages and components, the API wrappers and the styling config. These are UI.
