/// `findSafePoint`: up to `maxAttempts` attempts, each fetching terrain
/// around a trial point at the target distance, keeping the points whose
/// distance from the origin lies in the tolerance band, and hazard-checking
/// them closest-to-target first; the first hazard-free one is returned, and
/// when every attempt fails an unvalidated point at the target distance is.
///
/// The method `FindSafePoint` is the source's loop; `Search` and `SearchLog`
/// say what it returns and which requests it issues, and the lemmas below
/// them state what the source promises about both.

module SafePointService {
  import opened Types
  import opened Overpass
  import opened Ranking

  /** The values of `utils/constants` that the search reads. */
  datatype Constants = Constants(
    targetDistance: real,     // TARGET_DISTANCE
    targetTolerance: real,    // TARGET_TOLERANCE
    targetRadius: real,       // TARGET_RADIUS, the hazard-check radius
    searchZoneRadius: real)   // SEARCH_ZONE_RADIUS, the terrain-search radius

  /** One request to the feature store: the attempt it belongs to, its centre
      and its radius. */
  datatype Query = Query(attempt: nat, latitude: real, longitude: real, radius: real)

  datatype Request = TerrainFetch(query: Query) | HazardCheck(query: Query)

  /** Everything the search gets from outside: the distance function, the
      flat-earth offset `(lat, lon, bearing, metres) -> point`, the bearing
      drawn for each attempt and for the fallback, the clock reading that
      stamps the fallback, and the answers of the two kinds of request. */
  datatype World = World(
    distance: Metric,
    offset: (real, real, real, real) -> Coord,
    angle: nat -> real,
    fallbackAngle: real,
    clock: int,
    terrain: Query -> Response,
    hazards: Query -> Response)

  /** The arguments of `findSafePoint(latitude, longitude, maxAttempts, customDistance)`. */
  datatype Call = Call(latitude: real, longitude: real, maxAttempts: int, customDistance: Option<real>)

  /** What the search ended in. The source returns only the point; the tag
      is for stating properties. */
  datatype Outcome = Validated(point: Position, attempt: nat) | Fallback(point: Position)

  function TargetDistance(k: Constants, call: Call): real
  {
    if call.customDistance.Some? then call.customDistance.value else k.targetDistance
  }

  function Origin(call: Call): Coord
  {
    Coord(call.latitude, call.longitude)
  }

  /** The terrain request of an attempt, centred on the trial point at the
      target distance along that attempt's bearing. */
  function TrialQuery(w: World, k: Constants, call: Call, attempt: nat): Query
  {
    QueryAround(attempt, w.offset(call.latitude, call.longitude, w.angle(attempt), TargetDistance(k, call)), k.searchZoneRadius)
  }

  function QueryAround(attempt: nat, centre: Coord, radius: real): Query
  {
    Query(attempt, centre.lat, centre.lon, radius)
  }

  function Fetched(w: World, k: Constants, call: Call, attempt: nat): seq<Position>
  {
    FetchSafePoints(w.terrain(TrialQuery(w, k, call, attempt)))
  }

  /** The candidates of an attempt in the order they are hazard-checked. */
  function Ranked(w: World, k: Constants, call: Call, attempt: nat): seq<Candidate>
  {
    Rank(w.distance, Origin(call), Fetched(w, k, call, attempt),
         TargetDistance(k, call) - k.targetTolerance, TargetDistance(k, call) + k.targetTolerance,
         TargetDistance(k, call))
  }

  function HazardQuery(k: Constants, attempt: nat, c: Candidate): Query
  {
    Query(attempt, c.point.latitude, c.point.longitude, k.targetRadius)
  }

  /** A candidate passes when its hazard request raises none of the three flags. */
  predicate IsSafe(w: World, k: Constants, attempt: nat, c: Candidate)
  {
    !CheckForHazards(w.hazards(HazardQuery(k, attempt, c))).Any()
  }

  /** The index of the first candidate from `from` on that passes. */
  function FirstSafe(w: World, k: Constants, attempt: nat, ranked: seq<Candidate>, from: nat): (r: Option<nat>)
    requires from <= |ranked|
    ensures r.Some? ==> from <= r.value < |ranked|
    decreases |ranked| - from
  {
    if from == |ranked| then None
    else if IsSafe(w, k, attempt, ranked[from]) then Some(from)
    else FirstSafe(w, k, attempt, ranked, from + 1)
  }

  /** `FirstSafe` finds the first candidate from `from` on that passes, and
      finds none exactly when none passes. */
  lemma {:induction false} FirstSafeIsFirst(w: World, k: Constants, attempt: nat, ranked: seq<Candidate>, from: nat)
    requires from <= |ranked|
    ensures FirstSafe(w, k, attempt, ranked, from).Some? ==>
      IsSafe(w, k, attempt, ranked[FirstSafe(w, k, attempt, ranked, from).value]) &&
      forall j :: from <= j < FirstSafe(w, k, attempt, ranked, from).value ==> !IsSafe(w, k, attempt, ranked[j])
    ensures FirstSafe(w, k, attempt, ranked, from).None? <==> forall j :: from <= j < |ranked| ==> !IsSafe(w, k, attempt, ranked[j])
    decreases |ranked| - from
  {
    if from < |ranked| && !IsSafe(w, k, attempt, ranked[from]) {
      FirstSafeIsFirst(w, k, attempt, ranked, from + 1);
    }
  }

  function Accepted(w: World, k: Constants, call: Call, attempt: nat): Option<nat>
  {
    FirstSafe(w, k, attempt, Ranked(w, k, call, attempt), 0)
  }

  /** What one attempt yields: the point of its accepted candidate, if any. */
  function AttemptResult(w: World, k: Constants, call: Call, attempt: nat): Option<Position>
  {
    match Accepted(w, k, call, attempt)
    case Some(i) => Some(Ranked(w, k, call, attempt)[i].point)
    case None => None
  }

  function AttemptResults(w: World, k: Constants, call: Call): nat -> Option<Position>
  {
    (a: nat) => AttemptResult(w, k, call, a)
  }

  /** The unvalidated point the search falls back on. */
  function FallbackPoint(w: World, k: Constants, call: Call): Position
  {
    Stamped(w.offset(call.latitude, call.longitude, w.fallbackAngle, TargetDistance(k, call)), w.clock)
  }

  function Stamped(c: Coord, clock: int): Position
  {
    Position(c.lat, c.lon, clock)
  }

  /** The attempt loop over any per-attempt results: the first attempt below
      `maxAttempts` that yields a point wins, otherwise `fallback`. */
  function Attempts(results: nat -> Option<Position>, maxAttempts: int, attempt: nat, fallback: Position): Outcome
    decreases maxAttempts - attempt
  {
    if maxAttempts <= attempt then Fallback(fallback)
    else if results(attempt).Some? then Validated(results(attempt).value, attempt)
    else Attempts(results, maxAttempts, attempt + 1, fallback)
  }

  /** The result of the attempts from `attempt` on. */
  function Search(w: World, k: Constants, call: Call, attempt: nat): Outcome
  {
    Attempts(AttemptResults(w, k, call), call.maxAttempts, attempt, FallbackPoint(w, k, call))
  }

  /** One hazard request per candidate, in order. */
  function HazardChecks(k: Constants, attempt: nat, cs: seq<Candidate>): seq<Request>
  {
    seq(|cs|, i requires 0 <= i < |cs| => HazardCheck(HazardQuery(k, attempt, cs[i])))
  }

  /** The requests of one attempt: its terrain fetch, then one hazard check
      per candidate up to and including the accepted one. */
  function AttemptLog(w: World, k: Constants, call: Call, attempt: nat): (log: seq<Request>)
  {
    [TerrainFetch(TrialQuery(w, k, call, attempt))] +
    HazardChecks(k, attempt, Ranked(w, k, call, attempt)[..CheckedCount(Accepted(w, k, call, attempt), |Ranked(w, k, call, attempt)|)])
  }

  /** How many candidates are hazard-checked when `accepted` is the accepted
      index among `total`: all of them up to and including it. */
  function CheckedCount(accepted: Option<nat>, total: nat): nat
  {
    match accepted
    case Some(i) => if i < total then i + 1 else total
    case None => total
  }

  function AttemptLogs(w: World, k: Constants, call: Call): nat -> seq<Request>
  {
    (a: nat) => AttemptLog(w, k, call, a)
  }

  /** The requests of the attempt loop over any per-attempt results and
      requests: those of every attempt up to and including the first that
      yields a point. */
  function AttemptsLog(results: nat -> Option<Position>, logs: nat -> seq<Request>, maxAttempts: int, attempt: nat): seq<Request>
    decreases maxAttempts - attempt
  {
    if maxAttempts <= attempt then []
    else if results(attempt).Some? then logs(attempt)
    else logs(attempt) + AttemptsLog(results, logs, maxAttempts, attempt + 1)
  }

  /** The requests of the attempts from `attempt` on, in issue order. */
  function SearchLog(w: World, k: Constants, call: Call, attempt: nat): seq<Request>
  {
    AttemptsLog(AttemptResults(w, k, call), AttemptLogs(w, k, call), call.maxAttempts, attempt)
  }

  /** The inner loop of an attempt: hazard-check the candidates in order
      and stop at the first one that raises no flag. */
  method CheckInOrder(w: World, k: Constants, attempt: nat, sorted: seq<Candidate>)
    returns (accepted: Option<nat>, ghost log: seq<Request>)
    ensures accepted == FirstSafe(w, k, attempt, sorted, 0)
    ensures log == HazardChecks(k, attempt, sorted[..CheckedCount(accepted, |sorted|)])
  {
    log := [];
    for i := 0 to |sorted|
      invariant log == HazardChecks(k, attempt, sorted[..i])
      invariant FirstSafe(w, k, attempt, sorted, 0) == FirstSafe(w, k, attempt, sorted, i)
    {
      var candidate := sorted[i];
      var hazardQuery := Query(attempt, candidate.point.latitude, candidate.point.longitude, k.targetRadius);
      var hazards := CheckForHazards(w.hazards(hazardQuery));
      log := log + [HazardCheck(hazardQuery)];
      HazardChecksExtend(k, attempt, sorted, i);
      if hazards.hasRailway || hazards.hasHighway || hazards.hasIndustrial {
        continue;
      }
      return Some(i), log;
    }
    accepted := None;
  }

  /** One pass of the attempt loop's body: fetch terrain around the trial
      point, keep the in-band candidates, rank them and check them in order.
      `found` is the accepted point, if any. */
  method RunAttempt(w: World, k: Constants, call: Call, attempt: nat, targetDistance: real)
    returns (found: Option<Position>, ghost log: seq<Request>)
    requires targetDistance == TargetDistance(k, call)
    ensures found == AttemptResult(w, k, call, attempt)
    ensures log == AttemptLog(w, k, call, attempt)
  {
    var minDistance := targetDistance - k.targetTolerance;
    var maxDistance := targetDistance + k.targetTolerance;
    var trial := w.offset(call.latitude, call.longitude, w.angle(attempt), targetDistance);
    var terrainQuery := Query(attempt, trial.lat, trial.lon, k.searchZoneRadius);
    var safePoints := FetchSafePoints(w.terrain(terrainQuery));
    log := [TerrainFetch(terrainQuery)];
    assert terrainQuery == TrialQuery(w, k, call, attempt);
    assert safePoints == Fetched(w, k, call, attempt);
    if |safePoints| == 0 {
      NothingInBand(w, k, call, attempt);
      NothingToCheck(w, k, call, attempt);
      return None, log;
    }
    var validCandidates := WithinBand(Measure(w.distance, Coord(call.latitude, call.longitude), safePoints), minDistance, maxDistance);
    if |validCandidates| == 0 {
      NothingInBand(w, k, call, attempt);
      NothingToCheck(w, k, call, attempt);
      return None, log;
    }
    var sorted := SortByCloseness(validCandidates, targetDistance);
    RankedUnfolds(w, k, call, attempt, safePoints, targetDistance);
    var accepted, checks := CheckInOrder(w, k, attempt, sorted);
    AttemptUnfolds(w, k, call, attempt, sorted, accepted);
    log := log + checks;
    if accepted.Some? {
      var candidate := sorted[accepted.value];
      found := Some(Position(candidate.point.latitude, candidate.point.longitude, candidate.point.timestamp));
      assert found == Some(candidate.point);
    } else {
      found := None;
    }
  }

  /** `findSafePoint`. The random bearings, the clock, the distance function
      and the two requests come from `w`; `outcome` and `log` are ghost
      records of which path returned and what was requested. */
  method FindSafePoint(w: World, k: Constants, call: Call) returns (p: Position, ghost outcome: Outcome, ghost log: seq<Request>)
    ensures p == Search(w, k, call, 0).point
    ensures outcome == Search(w, k, call, 0)
    ensures log == SearchLog(w, k, call, 0)
  {
    var targetDistance := if call.customDistance.Some? then call.customDistance.value else k.targetDistance;
    log := [];
    var attempt: nat := 0;
    while attempt < call.maxAttempts
      invariant Search(w, k, call, attempt) == Search(w, k, call, 0)
      invariant log + SearchLog(w, k, call, attempt) == SearchLog(w, k, call, 0)
      decreases call.maxAttempts - attempt
    {
      var found, attemptLog := RunAttempt(w, k, call, attempt, targetDistance);
      if found.Some? {
        SearchStops(w, k, call, attempt, log, attemptLog);
        p := found.value;
        outcome := Validated(p, attempt);
        log := log + attemptLog;
        return;
      }
      SearchGoesOn(w, k, call, attempt, log, attemptLog);
      log := log + attemptLog;
      attempt := attempt + 1;
    }
    SearchEnds(w, k, call, attempt);
    var final := w.offset(call.latitude, call.longitude, w.fallbackAngle, targetDistance);
    p := Position(final.lat, final.lon, w.clock);
    outcome := Fallback(p);
  }

  /** One attempt of the search: its result decides between returning and
      going on, and its requests come first. */
  lemma SearchUnfolds(w: World, k: Constants, call: Call, attempt: nat)
    requires attempt < call.maxAttempts
    ensures AttemptResult(w, k, call, attempt).Some? ==>
      Search(w, k, call, attempt) == Validated(AttemptResult(w, k, call, attempt).value, attempt) &&
      SearchLog(w, k, call, attempt) == AttemptLog(w, k, call, attempt)
    ensures AttemptResult(w, k, call, attempt).None? ==>
      Search(w, k, call, attempt) == Search(w, k, call, attempt + 1) &&
      SearchLog(w, k, call, attempt) == AttemptLog(w, k, call, attempt) + SearchLog(w, k, call, attempt + 1)
  {
  }

  /** The loop's step when an attempt validates a point: the search ends
      with it, and the attempt's requests are the last ones. */
  lemma SearchStops(w: World, k: Constants, call: Call, attempt: nat, before: seq<Request>, attemptLog: seq<Request>)
    requires attempt < call.maxAttempts
    requires AttemptResult(w, k, call, attempt).Some?
    requires attemptLog == AttemptLog(w, k, call, attempt)
    requires Search(w, k, call, attempt) == Search(w, k, call, 0)
    requires before + SearchLog(w, k, call, attempt) == SearchLog(w, k, call, 0)
    ensures Search(w, k, call, 0) == Validated(AttemptResult(w, k, call, attempt).value, attempt)
    ensures before + attemptLog == SearchLog(w, k, call, 0)
  {
    SearchUnfolds(w, k, call, attempt);
  }

  /** The loop's step when an attempt validates nothing: the search goes on
      with the next attempt, after this attempt's requests. */
  lemma SearchGoesOn(w: World, k: Constants, call: Call, attempt: nat, before: seq<Request>, attemptLog: seq<Request>)
    requires attempt < call.maxAttempts
    requires AttemptResult(w, k, call, attempt).None?
    requires attemptLog == AttemptLog(w, k, call, attempt)
    requires Search(w, k, call, attempt) == Search(w, k, call, 0)
    requires before + SearchLog(w, k, call, attempt) == SearchLog(w, k, call, 0)
    ensures Search(w, k, call, attempt + 1) == Search(w, k, call, 0)
    ensures (before + attemptLog) + SearchLog(w, k, call, attempt + 1) == SearchLog(w, k, call, 0)
  {
    SearchUnfolds(w, k, call, attempt);
    assert (before + attemptLog) + SearchLog(w, k, call, attempt + 1) == before + (attemptLog + SearchLog(w, k, call, attempt + 1));
  }

  /** Past the last attempt the search falls back and requests nothing. */
  lemma SearchEnds(w: World, k: Constants, call: Call, attempt: nat)
    requires call.maxAttempts <= attempt
    ensures Search(w, k, call, attempt) == Fallback(FallbackPoint(w, k, call))
    ensures SearchLog(w, k, call, attempt) == []
  {
  }

  /** An attempt whose fetch is empty, or whose fetched points all lie
      outside the band, has no candidate to check. */
  lemma NothingInBand(w: World, k: Constants, call: Call, attempt: nat)
    requires Fetched(w, k, call, attempt) == [] ||
      WithinBand(Measure(w.distance, Origin(call), Fetched(w, k, call, attempt)),
        TargetDistance(k, call) - k.targetTolerance, TargetDistance(k, call) + k.targetTolerance) == []
    ensures Ranked(w, k, call, attempt) == []
  {
    var measured := Measure(w.distance, Origin(call), Fetched(w, k, call, attempt));
    var valid := WithinBand(measured, TargetDistance(k, call) - k.targetTolerance, TargetDistance(k, call) + k.targetTolerance);
    assert valid == [] by {
      if Fetched(w, k, call, attempt) == [] {
        assert measured == [];
      }
    }
    RankedUnfolds(w, k, call, attempt, Fetched(w, k, call, attempt), TargetDistance(k, call));
    assert SortByCloseness(valid, TargetDistance(k, call)) == [];
  }

  /** An attempt with no candidate issues only its terrain fetch and
      validates nothing. */
  lemma NothingToCheck(w: World, k: Constants, call: Call, attempt: nat)
    requires Ranked(w, k, call, attempt) == []
    ensures AttemptResult(w, k, call, attempt) == None
    ensures AttemptLog(w, k, call, attempt) == [TerrainFetch(TrialQuery(w, k, call, attempt))]
  {
    assert Accepted(w, k, call, attempt) == None;
    assert HazardChecks(k, attempt, Ranked(w, k, call, attempt)[..0]) == [];
  }

  /** `Ranked` is what the attempt body computes from its fetched points. */
  lemma RankedUnfolds(w: World, k: Constants, call: Call, attempt: nat, safePoints: seq<Position>, targetDistance: real)
    requires safePoints == Fetched(w, k, call, attempt)
    requires targetDistance == TargetDistance(k, call)
    ensures Ranked(w, k, call, attempt) ==
      SortByCloseness(WithinBand(Measure(w.distance, Coord(call.latitude, call.longitude), safePoints),
                                 targetDistance - k.targetTolerance, targetDistance + k.targetTolerance),
                      targetDistance)
  {
  }

  /** An attempt's result and requests, given its ranking and the index its
      checks accepted. */
  lemma AttemptUnfolds(w: World, k: Constants, call: Call, attempt: nat, ranked: seq<Candidate>, accepted: Option<nat>)
    requires ranked == Ranked(w, k, call, attempt)
    requires accepted == FirstSafe(w, k, attempt, ranked, 0)
    ensures accepted.Some? ==> accepted.value < |ranked| && AttemptResult(w, k, call, attempt) == Some(ranked[accepted.value].point)
    ensures accepted.None? ==> AttemptResult(w, k, call, attempt) == None
    ensures AttemptLog(w, k, call, attempt) ==
      [TerrainFetch(TrialQuery(w, k, call, attempt))] + HazardChecks(k, attempt, ranked[..CheckedCount(accepted, |ranked|)])
  {
  }

  lemma HazardChecksExtend(k: Constants, attempt: nat, cs: seq<Candidate>, i: nat)
    requires i < |cs|
    ensures HazardChecks(k, attempt, cs[..i + 1]) ==
      HazardChecks(k, attempt, cs[..i]) + [HazardCheck(Query(attempt, cs[i].point.latitude, cs[i].point.longitude, k.targetRadius))]
  {
  }

  /** The attempt loop falls back exactly when no remaining attempt yields
      a point, and then returns the fallback. */
  lemma {:induction false} AttemptsFallBackIffAllFail(results: nat -> Option<Position>, maxAttempts: int, attempt: nat, fallback: Position)
    ensures Attempts(results, maxAttempts, attempt, fallback).Fallback? <==>
      forall b :: attempt <= b < maxAttempts ==> results(b).None?
    ensures Attempts(results, maxAttempts, attempt, fallback).Fallback? ==>
      Attempts(results, maxAttempts, attempt, fallback).point == fallback
    decreases maxAttempts - attempt
  {
    if attempt < maxAttempts && results(attempt).None? {
      AttemptsFallBackIffAllFail(results, maxAttempts, attempt + 1, fallback);
    }
  }

  /** A validated outcome names the first attempt that yielded a point, and
      carries that point. */
  lemma {:induction false} AttemptsValidateFirstSuccess(results: nat -> Option<Position>, maxAttempts: int, attempt: nat, fallback: Position, p: Position, a: nat)
    requires Attempts(results, maxAttempts, attempt, fallback) == Validated(p, a)
    ensures attempt <= a < maxAttempts
    ensures results(a) == Some(p)
    ensures forall b :: attempt <= b < a ==> results(b).None?
    decreases maxAttempts - attempt
  {
    if results(attempt).None? {
      AttemptsValidateFirstSuccess(results, maxAttempts, attempt + 1, fallback, p, a);
    }
  }

  /** An attempt yields nothing exactly when every ranked candidate raised a
      hazard flag; otherwise it yields the first ranked candidate that raised
      none. */
  lemma AttemptYieldsFirstHazardFree(w: World, k: Constants, call: Call, attempt: nat)
    ensures AttemptResult(w, k, call, attempt).None? <==>
      forall j :: 0 <= j < |Ranked(w, k, call, attempt)| ==> !IsSafe(w, k, attempt, Ranked(w, k, call, attempt)[j])
    ensures AttemptResult(w, k, call, attempt).Some? ==>
      exists i :: (0 <= i < |Ranked(w, k, call, attempt)| &&
        Ranked(w, k, call, attempt)[i].point == AttemptResult(w, k, call, attempt).value &&
        IsSafe(w, k, attempt, Ranked(w, k, call, attempt)[i]) &&
        forall j :: 0 <= j < i ==> !IsSafe(w, k, attempt, Ranked(w, k, call, attempt)[j]))
  {
    FirstSafeIsFirst(w, k, attempt, Ranked(w, k, call, attempt), 0);
  }

  /** In a list sorted by closeness, the first candidate that passes is at
      least as close to the target as every candidate that passes. */
  lemma FirstSafeIsClosest(w: World, k: Constants, attempt: nat, ranked: seq<Candidate>, target: real)
    requires Ascending(ranked, target)
    requires FirstSafe(w, k, attempt, ranked, 0).Some?
    ensures forall d :: d in ranked && IsSafe(w, k, attempt, d) ==>
      Closeness(ranked[FirstSafe(w, k, attempt, ranked, 0).value], target) <= Closeness(d, target)
  {
    var i := FirstSafe(w, k, attempt, ranked, 0).value;
    FirstSafeIsFirst(w, k, attempt, ranked, 0);
    forall d | d in ranked && IsSafe(w, k, attempt, d)
      ensures Closeness(ranked[i], target) <= Closeness(d, target)
    {
      var j :| 0 <= j < |ranked| && ranked[j] == d;
      assert i <= j;
    }
  }

  /** The terrain fetches among a list of requests. */
  function TerrainFetches(log: seq<Request>): seq<Request>
  {
    Filter(log, (r: Request) => r.TerrainFetch?)
  }

  /** How many attempts remain from `attempt` on. */
  function AttemptsLeft(maxAttempts: int, attempt: nat): nat
  {
    if attempt < maxAttempts then maxAttempts - attempt else 0
  }

  /** An attempt's requests, its terrain fetch followed by hazard checks,
      hold exactly one terrain fetch. */
  lemma OneFetchThenChecks(q: Query, k: Constants, attempt: nat, cs: seq<Candidate>)
    ensures TerrainFetches([TerrainFetch(q)] + HazardChecks(k, attempt, cs)) == [TerrainFetch(q)]
  {
    var isFetch := (r: Request) => r.TerrainFetch?;
    FilterConcat([TerrainFetch(q)], HazardChecks(k, attempt, cs), isFetch);
    FilterNone(HazardChecks(k, attempt, cs), isFetch);
  }

  /** Each attempt of the search issues exactly one terrain fetch. */
  lemma EveryAttemptFetchesOnce(w: World, k: Constants, call: Call)
    ensures forall a: nat :: |TerrainFetches(AttemptLogs(w, k, call)(a))| == 1
  {
    forall a: nat ensures |TerrainFetches(AttemptLogs(w, k, call)(a))| == 1 {
      OneFetchThenChecks(TrialQuery(w, k, call, a), k, a,
        Ranked(w, k, call, a)[..CheckedCount(Accepted(w, k, call, a), |Ranked(w, k, call, a)|)]);
    }
  }

  /** When every attempt issues one terrain fetch, the loop issues at most
      `maxAttempts` of them: one per attempt up to and including the one
      that validated, or one per attempt when it falls back. */
  lemma {:induction false} OneFetchPerAttempt(results: nat -> Option<Position>, logs: nat -> seq<Request>,
                                              maxAttempts: int, attempt: nat, fallback: Position)
    requires forall a: nat :: |TerrainFetches(logs(a))| == 1
    ensures |TerrainFetches(AttemptsLog(results, logs, maxAttempts, attempt))| <= AttemptsLeft(maxAttempts, attempt)
    ensures Attempts(results, maxAttempts, attempt, fallback).Fallback? ==>
      |TerrainFetches(AttemptsLog(results, logs, maxAttempts, attempt))| == AttemptsLeft(maxAttempts, attempt)
    ensures Attempts(results, maxAttempts, attempt, fallback).Validated? ==>
      attempt <= Attempts(results, maxAttempts, attempt, fallback).attempt < maxAttempts &&
      |TerrainFetches(AttemptsLog(results, logs, maxAttempts, attempt))| ==
        Attempts(results, maxAttempts, attempt, fallback).attempt - attempt + 1
    decreases maxAttempts - attempt
  {
    if attempt < maxAttempts && results(attempt).None? {
      OneFetchPerAttempt(results, logs, maxAttempts, attempt + 1, fallback);
      FilterConcat(logs(attempt), AttemptsLog(results, logs, maxAttempts, attempt + 1), (r: Request) => r.TerrainFetch?);
    }
  }

  /** When no attempt has a candidate, because every fetch came back empty
      or entirely outside the band, each attempt issues its terrain fetch and
      nothing else, and the fallback point is returned. */
  lemma {:induction false} NoCandidatesFallsBack(w: World, k: Constants, call: Call, attempt: nat)
    requires forall a: nat :: Ranked(w, k, call, a) == []
    ensures Search(w, k, call, attempt) == Fallback(FallbackPoint(w, k, call))
    ensures |SearchLog(w, k, call, attempt)| == AttemptsLeft(call.maxAttempts, attempt)
    ensures forall i :: 0 <= i < |SearchLog(w, k, call, attempt)| ==>
      SearchLog(w, k, call, attempt)[i] == TerrainFetch(TrialQuery(w, k, call, attempt + i))
    decreases call.maxAttempts - attempt
  {
    if attempt < call.maxAttempts {
      NothingToCheck(w, k, call, attempt);
      NoCandidatesFallsBack(w, k, call, attempt + 1);
      assert Search(w, k, call, attempt) == Search(w, k, call, attempt + 1);
      var rest := SearchLog(w, k, call, attempt + 1);
      assert SearchLog(w, k, call, attempt) == [TerrainFetch(TrialQuery(w, k, call, attempt))] + rest;
      forall i | 1 <= i < |SearchLog(w, k, call, attempt)|
        ensures SearchLog(w, k, call, attempt)[i] == TerrainFetch(TrialQuery(w, k, call, attempt + i))
      {
        assert SearchLog(w, k, call, attempt)[i] == rest[i - 1];
      }
    }
  }

  /** An attempt whose terrain request failed has no candidate. */
  lemma NothingFetched(w: World, k: Constants, call: Call, attempt: nat)
    requires w.terrain(TrialQuery(w, k, call, attempt)) == Failed
    ensures Ranked(w, k, call, attempt) == []
  {
    assert Fetched(w, k, call, attempt) == [];
    NothingInBand(w, k, call, attempt);
  }

  /** When no terrain request is ever answered, every attempt issues its
      terrain fetch and nothing else, and the fallback point is returned. */
  lemma UnansweredTerrainFallsBack(w: World, k: Constants, call: Call, attempt: nat)
    requires forall q :: w.terrain(q) == Failed
    ensures Search(w, k, call, attempt) == Fallback(FallbackPoint(w, k, call))
    ensures |SearchLog(w, k, call, attempt)| == AttemptsLeft(call.maxAttempts, attempt)
    ensures forall i :: 0 <= i < |SearchLog(w, k, call, attempt)| ==>
      SearchLog(w, k, call, attempt)[i] == TerrainFetch(TrialQuery(w, k, call, attempt + i))
  {
    forall a: nat ensures Ranked(w, k, call, a) == [] {
      NothingFetched(w, k, call, a);
    }
    NoCandidatesFallsBack(w, k, call, attempt);
  }

  /** A hazard request that fails raises no flag, so when every hazard
      request fails the first ranked candidate of an attempt is accepted
      without its surroundings having been checked. */
  lemma FailedHazardCheckAccepts(w: World, k: Constants, call: Call, attempt: nat)
    requires forall q :: w.hazards(q) == Failed
    requires Ranked(w, k, call, attempt) != []
    ensures AttemptResult(w, k, call, attempt) == Some(Ranked(w, k, call, attempt)[0].point)
  {
  }

  /** The whole search issues at most `maxAttempts` terrain fetches, and
      exactly `maxAttempts` when it falls back. */
  lemma SearchFetchesAtMostMaxAttempts(w: World, k: Constants, call: Call)
    ensures |TerrainFetches(SearchLog(w, k, call, 0))| <= AttemptsLeft(call.maxAttempts, 0)
    ensures Search(w, k, call, 0).Fallback? ==>
      |TerrainFetches(SearchLog(w, k, call, 0))| == AttemptsLeft(call.maxAttempts, 0)
  {
    EveryAttemptFetchesOnce(w, k, call);
    OneFetchPerAttempt(AttemptResults(w, k, call), AttemptLogs(w, k, call), call.maxAttempts, 0, FallbackPoint(w, k, call));
  }

  /** The search falls back exactly when no attempt yields a point, and its
      fallback is the unvalidated point at the target distance, stamped with
      the clock. */
  lemma SearchFallsBackIffNoAttemptYields(w: World, k: Constants, call: Call)
    ensures Search(w, k, call, 0).Fallback? <==>
      forall b: nat :: b < call.maxAttempts ==> AttemptResult(w, k, call, b).None?
    ensures Search(w, k, call, 0).Fallback? ==> Search(w, k, call, 0).point == FallbackPoint(w, k, call)
  {
    var results := AttemptResults(w, k, call);
    AttemptsFallBackIffAllFail(results, call.maxAttempts, 0, FallbackPoint(w, k, call));
    forall b: nat ensures results(b) == AttemptResult(w, k, call, b) {
    }
  }

  /** A validated search returns the point of the first attempt that yields
      one; every earlier attempt yielded nothing. */
  lemma SearchValidatesFirstYieldingAttempt(w: World, k: Constants, call: Call, p: Position, a: nat)
    requires Search(w, k, call, 0) == Validated(p, a)
    ensures a < call.maxAttempts
    ensures AttemptResult(w, k, call, a) == Some(p)
    ensures forall b: nat :: b < a ==> AttemptResult(w, k, call, b).None?
  {
    var results := AttemptResults(w, k, call);
    AttemptsValidateFirstSuccess(results, call.maxAttempts, 0, FallbackPoint(w, k, call), p, a);
    forall b: nat ensures results(b) == AttemptResult(w, k, call, b) {
    }
  }
}
