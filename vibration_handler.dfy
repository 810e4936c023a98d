/// The vibration handler: while the user is inside the search area and no
/// target has been captured, a repeating vibration runs whose rhythm and
/// strength depend on the distance to the safe point; otherwise no vibration
/// runs. Timers are modelled as a table of active intervals keyed by handle.

module VibrationHandler {
  import opened Types

  /** `SEARCH_ZONE_RADIUS` and `SAFE_ZONE_RADIUS`. */
  datatype Radii = Radii(searchZoneRadius: real, safeZoneRadius: real)

  /** The search area strictly contains the safe zone, so the band between
      their edges has positive width. */
  predicate Nested(radii: Radii)
  {
    radii.searchZoneRadius > radii.safeZoneRadius
  }

  function Min(a: real, b: real): real
  {
    if a <= b then a else b
  }

  function Max(a: real, b: real): real
  {
    if a >= b then a else b
  }

  /** The distance to the safe point scaled to the band between the two
      edges and clamped to [0, 1]: 0 at the safe zone, 1 at the search
      area's edge or beyond, and 1 when the distance is unknown. */
  function Normalized(radii: Radii, d: Extended): (n: real)
    requires Nested(radii)
    ensures 0.0 <= n <= 1.0
  {
    match d
    case Infinity => 1.0
    case Finite(v) =>
      Min(Max((v - radii.safeZoneRadius) / (radii.searchZoneRadius - radii.safeZoneRadius), 0.0), 1.0)
  }

  /** The milliseconds between two vibrations. */
  function IntervalTime(n: real): real
  {
    200.0 + (1.0 - n) * 1800.0
  }

  /** The milliseconds one vibration lasts. */
  function VibrationDuration(n: real): real
  {
    100.0 + (1.0 - n) * 400.0
  }

  /** One scheduled repeating vibration. */
  datatype Pulse = Pulse(period: real, duration: real)

  function PulseAt(radii: Radii, d: Extended): Pulse
    requires Nested(radii)
  {
    Pulse(IntervalTime(Normalized(radii, d)), VibrationDuration(Normalized(radii, d)))
  }

  /** `d1 <= d2` with JavaScript's ordering of `Infinity`. */
  predicate NoFarther(d1: Extended, d2: Extended)
  {
    d2.Infinity? || (d1.Finite? && d1.value <= d2.value)
  }

  /** Dividing by a positive width keeps the order of its operands. */
  lemma DivisionKeepsOrder(a: real, b: real, width: real)
    requires width > 0.0
    ensures a <= b ==> a / width <= b / width
    ensures a < b ==> a / width < b / width
  {
    var q := b / width - a / width;
    assert q * width == b - a;
    if q < 0.0 {
      ProductOfPositives(-q, width);
    }
    if q == 0.0 {
      assert b - a == 0.0;
    }
  }

  lemma ProductOfPositives(x: real, y: real)
    requires x > 0.0 && y > 0.0
    ensures x * y > 0.0
  {
  }

  /** The normalised distance is 0 up to the safe zone's edge, 1 from the
      search area's edge on or when the distance is unknown, and the linear
      ratio strictly between. */
  lemma NormalizedIsClampedRatio(radii: Radii, d: Extended)
    requires Nested(radii)
    ensures d.AtMost(radii.safeZoneRadius) ==> Normalized(radii, d) == 0.0
    ensures (d.Infinity? || d.value >= radii.searchZoneRadius) ==> Normalized(radii, d) == 1.0
    ensures d.Finite? && radii.safeZoneRadius < d.value < radii.searchZoneRadius ==>
      0.0 < Normalized(radii, d) < 1.0 &&
      Normalized(radii, d) * (radii.searchZoneRadius - radii.safeZoneRadius) == d.value - radii.safeZoneRadius
  {
    if d.Finite? {
      var width := radii.searchZoneRadius - radii.safeZoneRadius;
      var offset := d.value - radii.safeZoneRadius;
      DivisionKeepsOrder(offset, width, width);
      DivisionKeepsOrder(width, offset, width);
      DivisionKeepsOrder(offset, 0.0, width);
      DivisionKeepsOrder(0.0, offset, width);
      assert width / width == 1.0;
      assert 0.0 / width == 0.0;
      assert (offset / width) * width == offset;
    }
  }

  /** The normalised distance grows with the distance. */
  lemma NormalizedIsMonotonic(radii: Radii, d1: Extended, d2: Extended)
    requires Nested(radii)
    requires NoFarther(d1, d2)
    ensures Normalized(radii, d1) <= Normalized(radii, d2)
  {
    if d1.Finite? && d2.Finite? {
      DivisionKeepsOrder(d1.value - radii.safeZoneRadius, d2.value - radii.safeZoneRadius,
                         radii.searchZoneRadius - radii.safeZoneRadius);
    }
  }

  /** On normalised distances the interval lies in [200, 2000] ms and the
      duration in [100, 500] ms; both are longest, 2000 ms and 500 ms, at the
      safe zone, so closer means a slower rhythm of stronger vibrations. */
  lemma PulseBounds(n: real)
    requires 0.0 <= n <= 1.0
    ensures 200.0 <= IntervalTime(n) <= 2000.0
    ensures 100.0 <= VibrationDuration(n) <= 500.0
    ensures IntervalTime(n) == 2000.0 <==> n == 0.0
    ensures IntervalTime(n) == 200.0 <==> n == 1.0
    ensures VibrationDuration(n) == 500.0 <==> n == 0.0
    ensures VibrationDuration(n) == 100.0 <==> n == 1.0
  {
  }

  /** Moving closer to the safe point never shortens the interval nor the
      duration of the scheduled vibration. */
  lemma CloserNeverShortens(radii: Radii, d1: Extended, d2: Extended)
    requires Nested(radii)
    requires NoFarther(d1, d2)
    ensures PulseAt(radii, d1).period >= PulseAt(radii, d2).period
    ensures PulseAt(radii, d1).duration >= PulseAt(radii, d2).duration
  {
    NormalizedIsMonotonic(radii, d1, d2);
  }

  /** The context values one run of the effect reads. */
  datatype Reading = Reading(current: Option<Position>, searchCenter: Option<Position>,
                             safePoint: Option<Position>, target: Option<Position>)

  /** The effect's refs, the active intervals, the next handle `setInterval`
      hands out, and whether the last run registered its cleanup. */
  datatype HandlerState = HandlerState(active: map<nat, Pulse>, nextHandle: nat,
                                       intervalRef: Option<nat>, wasInside: bool, cleanupPending: bool)

  /** `distanceToSearchCenter <= SEARCH_ZONE_RADIUS`; an unknown position or
      centre is infinitely far away. */
  predicate InsideSearchArea(distance: Metric, radii: Radii, r: Reading)
  {
    DistanceOrInfinity(distance, r.current, r.searchCenter).AtMost(radii.searchZoneRadius)
  }

  /** Whether this run keeps a vibration going. */
  predicate Vibrates(distance: Metric, radii: Radii, r: Reading)
  {
    InsideSearchArea(distance, radii, r) && r.target.None?
  }

  /** `clearInterval` on the handle the ref holds, if any. */
  function ClearRef(active: map<nat, Pulse>, ref: Option<nat>): map<nat, Pulse>
  {
    if ref.Some? then active - {ref.value} else active
  }

  /** The cleanup a previous run registered: it clears the interval the ref
      holds but leaves the ref pointing at it. */
  function Cleanup(s: HandlerState): HandlerState
  {
    if s.cleanupPending then HandlerState(ClearRef(s.active, s.intervalRef), s.nextHandle, s.intervalRef, s.wasInside, false)
    else s
  }

  /** One run of the effect body. */
  function Effect(distance: Metric, radii: Radii, s: HandlerState, r: Reading): HandlerState
    requires Nested(radii)
  {
    if !Vibrates(distance, radii, r) then
      HandlerState(ClearRef(s.active, s.intervalRef), s.nextHandle, None, false, false)
    else
      HandlerState(ClearRef(s.active, s.intervalRef)[s.nextHandle := PulseAt(radii, DistanceOrInfinity(distance, r.current, r.safePoint))],
                   s.nextHandle + 1, Some(s.nextHandle), true, true)
  }

  /** A change of the effect's dependencies: the previous cleanup, then the
      effect. */
  function Rerun(distance: Metric, radii: Radii, s: HandlerState, r: Reading): HandlerState
    requires Nested(radii)
  {
    Effect(distance, radii, Cleanup(s), r)
  }

  /** Between runs: an interval is active exactly when a cleanup is pending,
      it is then the one the ref holds, and every handed-out handle is below
      `nextHandle`. */
  predicate Consistent(s: HandlerState)
  {
    (s.intervalRef.Some? ==> s.intervalRef.value < s.nextHandle) &&
    (s.cleanupPending ==> s.intervalRef.Some? && s.active.Keys == {s.intervalRef.value}) &&
    (!s.cleanupPending ==> s.active == map[])
  }

  function Mounted(): HandlerState
  {
    HandlerState(map[], 0, None, false, false)
  }

  /** The handler starts consistent and every rerun and the unmount keep it so. */
  lemma RerunKeepsConsistent(distance: Metric, radii: Radii, s: HandlerState, r: Reading)
    requires Nested(radii)
    requires Consistent(s)
    ensures Consistent(Mounted())
    ensures Consistent(Cleanup(s))
    ensures Consistent(Rerun(distance, radii, s, r))
  {
    var c := Cleanup(s);
    assert c.active == map[];
    assert ClearRef(c.active, c.intervalRef) == map[];
  }

  /** Outside the search area, or once a target is set, a rerun leaves no
      interval active, the ref empty and the latch clear. */
  lemma LeavingStopsVibration(distance: Metric, radii: Radii, s: HandlerState, r: Reading)
    requires Nested(radii)
    requires Consistent(s)
    requires !Vibrates(distance, radii, r)
    ensures Rerun(distance, radii, s, r).active == map[]
    ensures Rerun(distance, radii, s, r).intervalRef == None
    ensures !Rerun(distance, radii, s, r).wasInside
  {
    assert Cleanup(s).active == map[];
  }

  /** Inside the search area with no target, a rerun leaves exactly one
      interval active: a fresh one, held by the ref, vibrating as the
      distance to the safe point dictates; the previous one is gone. */
  lemma InsideRunsExactlyOnePulse(distance: Metric, radii: Radii, s: HandlerState, r: Reading)
    requires Nested(radii)
    requires Consistent(s)
    requires Vibrates(distance, radii, r)
    ensures s.nextHandle !in s.active
    ensures Rerun(distance, radii, s, r).active ==
      map[s.nextHandle := PulseAt(radii, DistanceOrInfinity(distance, r.current, r.safePoint))]
    ensures Rerun(distance, radii, s, r).intervalRef == Some(s.nextHandle)
    ensures Rerun(distance, radii, s, r).wasInside
  {
    assert Cleanup(s).active == map[];
  }

  /** Unmounting stops every vibration. */
  lemma UnmountStopsVibration(s: HandlerState)
    requires Consistent(s)
    ensures Cleanup(s).active == map[]
  {
  }

  /** The effect's refs and the timers it drives. */
  class Handler {
    const distance: Metric
    const radii: Radii
    var active: map<nat, Pulse>
    var nextHandle: nat
    var vibrationIntervalRef: Option<nat>
    var wasInsideSearchArea: bool
    var cleanupPending: bool

    function State(): HandlerState
      reads this
    {
      HandlerState(active, nextHandle, vibrationIntervalRef, wasInsideSearchArea, cleanupPending)
    }

    constructor(distance: Metric, radii: Radii)
      requires Nested(radii)
      ensures this.distance == distance && this.radii == radii
      ensures State() == Mounted()
    {
      this.distance := distance;
      this.radii := radii;
      active := map[];
      nextHandle := 0;
      vibrationIntervalRef := None;
      wasInsideSearchArea := false;
      cleanupPending := false;
    }

    /** `clearInterval(handle)` */
    method ClearInterval(handle: nat)
      modifies this
      ensures active == old(active) - {handle}
      ensures nextHandle == old(nextHandle) && vibrationIntervalRef == old(vibrationIntervalRef)
      ensures wasInsideSearchArea == old(wasInsideSearchArea) && cleanupPending == old(cleanupPending)
    {
      active := active - {handle};
    }

    /** `setInterval(...)`: a fresh handle for a new repeating vibration. */
    method SetInterval(pulse: Pulse) returns (handle: nat)
      modifies this
      ensures handle == old(nextHandle) && nextHandle == old(nextHandle) + 1
      ensures active == old(active)[handle := pulse]
      ensures vibrationIntervalRef == old(vibrationIntervalRef)
      ensures wasInsideSearchArea == old(wasInsideSearchArea) && cleanupPending == old(cleanupPending)
    {
      handle := nextHandle;
      active := active[handle := pulse];
      nextHandle := nextHandle + 1;
    }

    /** The cleanup the previous run registered, if any. */
    method RunCleanup()
      modifies this
      ensures State() == Cleanup(old(State()))
    {
      if cleanupPending {
        if vibrationIntervalRef.Some? {
          ClearInterval(vibrationIntervalRef.value);
        }
        cleanupPending := false;
      }
    }

    /** A change of `currentPosition`, `searchCenter`, `safeArea` or
        `targetPosition`: the previous cleanup runs, then the effect. */
    method Update(currentPosition: Option<Position>, searchCenter: Option<Position>,
                  safePoint: Option<Position>, targetPosition: Option<Position>)
      requires Nested(radii)
      modifies this
      ensures State() == Rerun(distance, radii, old(State()), Reading(currentPosition, searchCenter, safePoint, targetPosition))
    {
      RunCleanup();
      RunEffect(currentPosition, searchCenter, safePoint, targetPosition);
    }

    /** The effect body, run once no cleanup is pending. */
    method RunEffect(currentPosition: Option<Position>, searchCenter: Option<Position>,
                     safePoint: Option<Position>, targetPosition: Option<Position>)
      requires Nested(radii)
      requires !cleanupPending
      modifies this
      ensures State() == Effect(distance, radii, old(State()), Reading(currentPosition, searchCenter, safePoint, targetPosition))
    {
      var distanceToSearchCenter := DistanceOrInfinity(distance, currentPosition, searchCenter);
      var distanceToSafePoint := DistanceOrInfinity(distance, currentPosition, safePoint);
      var isInsideSearchArea := distanceToSearchCenter.AtMost(radii.searchZoneRadius);
      if !isInsideSearchArea || targetPosition.Some? {
        if vibrationIntervalRef.Some? {
          ClearInterval(vibrationIntervalRef.value);
          vibrationIntervalRef := None;
        }
        wasInsideSearchArea := false;
        return;
      }
      if isInsideSearchArea && !wasInsideSearchArea {
        wasInsideSearchArea := true;
      }
      var normalizedDistance := Normalized(radii, distanceToSafePoint);
      var intervalTime := 200.0 + (1.0 - normalizedDistance) * 1800.0;
      var vibrationDuration := 100.0 + (1.0 - normalizedDistance) * 400.0;
      if vibrationIntervalRef.Some? {
        ClearInterval(vibrationIntervalRef.value);
      }
      assert Pulse(intervalTime, vibrationDuration) == PulseAt(radii, distanceToSafePoint);
      var handle := SetInterval(Pulse(intervalTime, vibrationDuration));
      vibrationIntervalRef := Some(handle);
      cleanupPending := true;
    }

    /** Unmounting runs the pending cleanup. */
    method Unmount()
      modifies this
      ensures State() == Cleanup(old(State()))
    {
      RunCleanup();
    }
  }
}
