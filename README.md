# Ghost-hunt safe-point search and proximity feedback, in Dafny

This project models the core of a location game. The app picks a "safe
point" at roughly a target walking distance from the player. It does this by
searching open terrain in a public map feature store and rejecting spots near
railways, motorways and industrial land. It then guides the player there with
vibration and captures a target position when the player first steps into
the safe zone around the point.

The model has seven modules:

- `Types` (types.dfy): positions, optional values (`T | null`), distances
  that may be `Infinity`, and `Filter`/`AnySatisfies`, the model of
  `Array.prototype.filter`/`some`.
- `Overpass` (overpass.dfy): what `fetchSafePoints` and `checkForHazards`
  keep of a feature-store answer. These are pure functions of the `Response`.
- `Ranking` (ranking.dfy): the candidate pipeline of one attempt. It
  measures each point's distance from the origin, keeps the tolerance band
  and sorts stably by closeness to the target distance.
- `SafePointService` (safe_point_service.dfy): `findSafePoint`.
  - `FindSafePoint` is the attempt loop. `RunAttempt` is one pass of its body
    and `CheckInOrder` is the inner hazard-check loop.
  - `FindSafePoint` is proved against the specification functions
    `Search`/`SearchLog`, `RunAttempt` against `AttemptResult`/`AttemptLog`,
    and `CheckInOrder` against `FirstSafe`/`HazardChecks`.
  - `Search`/`SearchLog` are built on the generic loop functions
    `Attempts`/`AttemptsLog`, whose properties are proved once for any
    per-attempt results.
  - The ghost out-parameters `outcome` and `log` record which path returned
    and which requests were issued, in order.
- `DistanceTracker` (distance_tracker.dfy): the tracker effect.
  - The class `Tracker` holds the `wasInsideSafeArea` ref and the state
    cells the effect writes.
  - `Step` is one run of the effect, proved equal to the transition
    function `Next`.
  - `Run` folds `Next` over a sequence of readings, for properties about
    several runs.
- `VibrationHandler` (vibration_handler.dfy):
  - the clamped distance-to-intensity mapping (`Normalized`,
    `IntervalTime`, `VibrationDuration`);
  - the class `Handler`, holding the interval ref, the `wasInsideSearchArea`
    ref and a table of active intervals keyed by handle. `Update` runs the
    previous effect's cleanup and then the effect, as React does when a
    dependency changes.
- `StatusDisplay` (status_display.dfy):
  - the `wasTargetSet` alert latch, as the class `Display`;
  - the rendered status.

A failed hazard request raises no flag (`checkForHazards` catches the
error and reports all three flags false), so the candidate it was about is
accepted without its surroundings having been checked. The search
therefore rejects hazardous spots only when the feature store answers;
`SafePointService.FailedHazardCheckAccepts` states this.

The outside world is passed in as parameters. This covers the distance
function, the flat-earth offset, the random bearings, the clock and the
answers to feature-store requests (a `World` value in `SafePointService`).

## Model

| member | source | states |
|---|---|---|
| Types.DistanceOrInfinity | components/VibrationHandler.tsx:16-34 | the distance is `Infinity` exactly when the position or the other point is missing; otherwise it is the metric between them |
| Types.FilterMembers | services/safePointService.ts:37-38 | every kept element is in the input and passes the predicate, and every input element that passes is kept |
| Types.FilterConcat | services/safePointService.ts:37-38 | filtering preserves order: the filter of `a + b` is the filter of `a` followed by that of `b` |
| Types.AnySatisfies | services/safePointService.ts:85-91 | `some` holds exactly when some element satisfies the predicate |
| Overpass.WaysAreExactlyTheKeptElements | services/safePointService.ts:37-38 | an element survives exactly when its type is "way" and it has a centre, and survivors keep their response order |
| Overpass.FetchSafePointsAreWayCentres | services/safePointService.ts:37-43 | one point per kept way, in order, with the centre's latitude and longitude and the response's clock as timestamp |
| Overpass.FetchSafePoints | services/safePointService.ts:48-51 | a failed request yields no points |
| Overpass.CheckForHazards | services/safePointService.ts:95-98 | a failed request raises none of the three flags |
| Overpass.HazardFlagsAreExistentials | services/safePointService.ts:80-92 | each flag holds exactly when some way with a centre has a non-empty `railway` tag, a `highway` value containing "motorway" or "trunk", or `landuse` equal to "industrial" |
| Overpass.ContainsIffSomeSuffix | services/safePointService.ts:87 | the motorway-or-trunk pattern match holds exactly when some suffix of the tag value starts with the word |
| Ranking.WithinBandKeepsExactlyTheBand | services/safePointService.ts:150-153 | a candidate survives exactly when `min <= distance <= max`, both ends inclusive, and survivors keep their order |
| Ranking.SortByClosenessSorts | services/safePointService.ts:162-166 | the sorted candidates are a permutation of the input, in non-decreasing distance from the target distance |
| Ranking.SortIsStable | services/safePointService.ts:162-166 | candidates with equal closeness keep their input order |
| Ranking.RankIsTheBand | services/safePointService.ts:140-166 | the ranked list is sorted by closeness and holds exactly the fetched points whose distance from the origin (not from the trial point) lies in the band |
| SafePointService.FirstSafeIsFirst | services/safePointService.ts:162-204 | the accepted candidate raised no flag and every earlier one raised some flag; none is accepted exactly when all raised a flag |
| SafePointService.CheckInOrder | services/safePointService.ts:162-205 | the inner loop accepts the first hazard-free candidate and issues one hazard check per candidate, up to and including the accepted one |
| SafePointService.RunAttempt | services/safePointService.ts:120-207 | one attempt's result and requests: a single terrain fetch around the trial point, then the hazard checks of `CheckInOrder`, and the accepted candidate's point |
| SafePointService.FindSafePoint | services/safePointService.ts:101-227 | the returned point and the requests issued are those of `Search` and `SearchLog` |
| SafePointService.NothingInBand | services/safePointService.ts:135-138 | an attempt whose fetch is empty, or whose points all lie outside the band, has no candidates |
| SafePointService.NothingToCheck | services/safePointService.ts:155-160 | an attempt without candidates makes no hazard request and yields nothing |
| SafePointService.AttemptYieldsFirstHazardFree | services/safePointService.ts:173-204 | an attempt yields nothing exactly when every ranked candidate raised a flag; otherwise it yields the point of the first one that raised none |
| SafePointService.FirstSafeIsClosest | services/safePointService.ts:162-204 | in a list sorted by closeness, the accepted candidate is at least as close to the target as every hazard-free one |
| SafePointService.AttemptsFallBackIffAllFail | services/safePointService.ts:119-226 | the attempt loop falls back exactly when no attempt below `maxAttempts` yields a point, and then returns the fallback |
| SafePointService.AttemptsValidateFirstSuccess | services/safePointService.ts:119-205 | a validated outcome is the first attempt that yields a point, below `maxAttempts`, and carries that point |
| SafePointService.SearchFallsBackIffNoAttemptYields | services/safePointService.ts:109-226 | the search falls back exactly when no attempt yields a point; the fallback is the offset point at `customDistance`, or `TARGET_DISTANCE` when none is given, stamped with the clock |
| SafePointService.SearchValidatesFirstYieldingAttempt | services/safePointService.ts:119-205 | a validated search returns the point of the first yielding attempt; every earlier attempt yielded nothing |
| SafePointService.OneFetchPerAttempt | services/safePointService.ts:119-134 | with one terrain fetch per attempt, the loop issues at most one per remaining attempt: exactly that many when it falls back, and one per attempt up to the validating one otherwise |
| SafePointService.EveryAttemptFetchesOnce | services/safePointService.ts:130-134 | each attempt's requests hold exactly one terrain fetch |
| SafePointService.SearchFetchesAtMostMaxAttempts | services/safePointService.ts:119-134 | the whole search issues at most `maxAttempts` terrain fetches, and exactly that many when it falls back |
| SafePointService.NoCandidatesFallsBack | services/safePointService.ts:119-226 | when no attempt has a candidate (every fetch empty or entirely outside the band), each remaining attempt issues only its terrain fetch, in order, and the fallback point is returned |
| SafePointService.FailedHazardCheckAccepts | services/safePointService.ts:95-98 | when every hazard request fails, an attempt with candidates accepts its first ranked candidate unchecked |
| SafePointService.UnansweredTerrainFallsBack | services/safePointService.ts:48-51 | when no terrain request is answered, every attempt issues only its terrain fetch and the fallback point is returned |
| DistanceTracker.Tracker.Step | components/DistanceTracker.tsx:25-73 | one run of the effect moves the refs and state cells exactly as `Next` says |
| DistanceTracker.IncompleteReadingChangesNothing | components/DistanceTracker.tsx:27-30 | without a current position or safe point nothing changes, the latch included |
| DistanceTracker.CompleteReadingReports | components/DistanceTracker.tsx:33-57 | a complete run reports `dist(current, safePoint) - SAFE_ZONE_RADIUS`, sets the walked distance only when a start position is known, and sets the latch to whether `dist <= SAFE_ZONE_RADIUS` |
| DistanceTracker.TargetChangesOnlyOnEnteringEdge | components/DistanceTracker.tsx:65-71 | the target changes exactly on an entering edge (no target, outside before, inside now), and becomes the current position |
| DistanceTracker.TargetNeverOverwritten | components/DistanceTracker.tsx:65 | once set, the target survives any sequence of runs |
| DistanceTracker.LatchFollowsLastCompleteReading | components/DistanceTracker.tsx:73 | after a sequence of runs the latch is the `isInside` of the last complete reading, or unchanged when there was none |
| DistanceTracker.StayingInsideNeverCaptures | components/DistanceTracker.tsx:65-73 | a user who is inside and stays inside never triggers a capture |
| DistanceTracker.CapturedTargetIsEnteringReading | components/DistanceTracker.tsx:65-73 | a target captured during a run is the current position of a complete reading that was inside, with the latch clear and no target before it |
| VibrationHandler.Normalized | components/VibrationHandler.tsx:54-58 | the normalised distance lies in [0, 1] |
| VibrationHandler.NormalizedIsClampedRatio | components/VibrationHandler.tsx:54-58 | it is 0 within the safe zone, 1 at or beyond the search edge or when the distance is unknown, and in between exactly the ratio `(d - SAFE) / (SEARCH - SAFE)` |
| VibrationHandler.NormalizedIsMonotonic | components/VibrationHandler.tsx:54-58 | a nearer distance never gives a larger normalised value |
| VibrationHandler.PulseBounds | components/VibrationHandler.tsx:61-63 | the interval lies in [200, 2000], 2000 exactly at the safe zone, and the duration lies in [100, 500], 500 exactly at the safe zone |
| VibrationHandler.CloserNeverShortens | components/VibrationHandler.tsx:61-63 | moving closer never shortens the interval or the duration |
| VibrationHandler.RerunKeepsConsistent | components/VibrationHandler.tsx:11-81 | mounting, each rerun and the cleanup keep at most one interval active, the one the ref holds |
| VibrationHandler.LeavingStopsVibration | components/VibrationHandler.tsx:39-46 | outside the search area or with a target set, a rerun leaves no interval active, the ref empty and the latch clear |
| VibrationHandler.InsideRunsExactlyOnePulse | components/VibrationHandler.tsx:49-73 | inside with no target, a rerun leaves exactly one fresh interval active, held by the ref, with the pulse for the current distance, and sets the latch |
| VibrationHandler.UnmountStopsVibration | components/VibrationHandler.tsx:76-80 | the cleanup leaves no interval active |
| VibrationHandler.Handler.Update | components/VibrationHandler.tsx:14-81 | the previous cleanup and one run of the effect change the handler exactly as `Rerun` says |
| VibrationHandler.Handler.RunEffect | components/VibrationHandler.tsx:16-73 | one run of the effect body changes the handler exactly as `Effect` says |
| VibrationHandler.Handler.Unmount | components/VibrationHandler.tsx:76-80 | unmounting runs the pending cleanup |
| StatusDisplay.AlertOnRisingEdge | components/StatusDisplay.tsx:33-48 | an alert is raised exactly when a target is present and the latch is clear; afterwards the latch says whether a target is present |
| StatusDisplay.Display.OnTarget | components/StatusDisplay.tsx:32-49 | one run of the alert effect raises the alert and sets the latch as `OnTargetChange` says |
| StatusDisplay.LatchTracksLastTarget | components/StatusDisplay.tsx:45-47 | after any non-empty run the latch says whether the last target is present |
| StatusDisplay.OneAlertPerAppearance | components/StatusDisplay.tsx:33-48 | over any run, the number of alerts equals the number of times a target appears where none was present, so clearing and setting it again raises a new alert |
| StatusDisplay.NoRepeatWhileTargetSet | components/StatusDisplay.tsx:33-45 | while the target stays set, at most the first run raises an alert |
| StatusDisplay.RenderShowsStatus | components/StatusDisplay.tsx:21-29 | "Ghost Detected!" is shown exactly when a target is set; otherwise the distance to the safe point is shown, 0 when it is unknown, with the walked distance |

## Left out

- The haversine `getDistance` is a parameter (`Metric`). The model assumes nothing about it, not even that it is non-negative.
- The flat-earth offset that places the trial and fallback points is a parameter. This covers the metres-per-degree factors and `cos`/`sin`. Nothing is proved about where the fallback lies.
- Numbers are exact: JavaScript's doubles are `real` and `int` here, so rounding and `NaN` are not modelled. This affects the band bounds and the band test, and the normalisation and pulse arithmetic. `maxAttempts` is an integer; a fractional or infinite argument is not modelled.
- `Math.random` is not modelled. The bearings come in as `angle(attempt)` and `fallbackAngle`.
- `Date.now()` is one clock reading per terrain response, shared by all its points, plus one for the fallback. The source reads the clock once per element.
- HTTP is not modelled: the request, the query strings, URL encoding and the two-second `delay` before each request. Every request is an oracle `Query -> Response`. `Failed` covers every path into a `catch` block: a network error, an error status, or a payload without an element array.
- The queries' server-side filters are the feature store's concern. The model keeps only the client-side filtering of the answer.
- `console` logging and `toFixed` formatting are not modelled.
- `FindSafePoint` takes `maxAttempts` explicitly. The default of 10 is the caller's concern.
- The sort of the in-band candidates is modelled on a value: a stable insertion sort into a new sequence. The source sorts its temporary array in place, and nothing else refers to that array.
- The constants are parameters. `VibrationHandler` requires `SEARCH_ZONE_RADIUS > SAFE_ZONE_RADIUS` (`Nested`), which the normalisation needs.
- Timers and device effects are not modelled: `setInterval`, `clearInterval`, `Vibration.vibrate` and `Alert.alert`.
  - Intervals are entries in a table of active pulses, keyed by handle.
  - Handles are always treated as present. React Native hands out positive timer ids, so the source's truthiness test on the ref does not differ.
  - The alert is the flag `OnTarget` returns.
- React scheduling is not modelled. Effects run one at a time, in the order their dependencies change. The tracker's state setters take effect at once.
- Rendering styles are not modelled.
- The other modules are not part of this model: the location service, the start-up orchestration, the map, search-area and focus components, the screen, the context provider, colours and types.
- The comment above the vibration interval says it gets shorter near the safe area. The code gives 2000 ms at the safe zone and 200 ms at the search edge. The model follows the code.
