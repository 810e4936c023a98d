/// The distance tracker: on every new reading of the location context it
/// reports the distance to the safe zone's edge and the distance walked from
/// the start, and it captures the target position on the reading at which
/// the user first steps into the safe zone. `wasInsideSafeArea` is a latch
/// that makes capture edge-triggered.

module DistanceTracker {
  import opened Types

  /** The context values one run of the effect reads. */
  datatype Reading = Reading(start: Option<Position>, current: Option<Position>, safePoint: Option<Position>)

  /** What the effect writes: the `wasInsideSafeArea` ref, the context's
      `targetPosition` and `userWalkedDistance`, and the screen's
      `distanceToSafeEdge`. */
  datatype TrackerState = TrackerState(wasInside: bool, target: Option<Position>, walked: real, edge: Option<real>)

  /** A reading the effect acts on: both the current position and the safe
      point are known. */
  predicate Complete(r: Reading)
  {
    r.current.Some? && r.safePoint.Some?
  }

  /** `distanceToSafePoint <= SAFE_ZONE_RADIUS`, the boundary counting as inside. */
  predicate IsInside(distance: Metric, safeZoneRadius: real, r: Reading)
    requires Complete(r)
  {
    Between(distance, r.current.value, r.safePoint.value) <= safeZoneRadius
  }

  /** The state after one run of the effect on reading `r`. */
  function Next(distance: Metric, safeZoneRadius: real, s: TrackerState, r: Reading): TrackerState
  {
    if !Complete(r) then s
    else TrackerState(
      IsInside(distance, safeZoneRadius, r),
      if s.target.None? && !s.wasInside && IsInside(distance, safeZoneRadius, r) then r.current else s.target,
      if r.start.Some? then Between(distance, r.start.value, r.current.value) else s.walked,
      Some(Between(distance, r.current.value, r.safePoint.value) - safeZoneRadius))
  }

  /** A run without a current position or a safe point changes nothing, the
      latch included. */
  lemma IncompleteReadingChangesNothing(distance: Metric, safeZoneRadius: real, s: TrackerState, r: Reading)
    requires !Complete(r)
    ensures Next(distance, safeZoneRadius, s, r) == s
  {
  }

  /** A complete run reports the distance to the edge, updates the walked
      distance only when a start position is known, and leaves the latch
      equal to whether the user is inside. */
  lemma CompleteReadingReports(distance: Metric, safeZoneRadius: real, s: TrackerState, r: Reading)
    requires Complete(r)
    ensures Next(distance, safeZoneRadius, s, r).edge ==
      Some(distance(r.current.value.latitude, r.current.value.longitude,
                    r.safePoint.value.latitude, r.safePoint.value.longitude) - safeZoneRadius)
    ensures r.start.Some? ==> (Next(distance, safeZoneRadius, s, r).walked ==
      distance(r.start.value.latitude, r.start.value.longitude, r.current.value.latitude, r.current.value.longitude))
    ensures r.start.None? ==> Next(distance, safeZoneRadius, s, r).walked == s.walked
    ensures Next(distance, safeZoneRadius, s, r).wasInside <==>
      distance(r.current.value.latitude, r.current.value.longitude,
               r.safePoint.value.latitude, r.safePoint.value.longitude) <= safeZoneRadius
  {
  }

  /** The target changes exactly on an entering edge (no target yet, outside
      before, inside now), and then becomes the current position. */
  lemma TargetChangesOnlyOnEnteringEdge(distance: Metric, safeZoneRadius: real, s: TrackerState, r: Reading)
    ensures Next(distance, safeZoneRadius, s, r).target != s.target <==>
      Complete(r) && s.target.None? && !s.wasInside && IsInside(distance, safeZoneRadius, r)
    ensures Next(distance, safeZoneRadius, s, r).target != s.target ==>
      Next(distance, safeZoneRadius, s, r).target == r.current
  {
  }

  /** The state after the effect has run on each reading of `rs` in turn. */
  function Run(distance: Metric, safeZoneRadius: real, s: TrackerState, rs: seq<Reading>): TrackerState
  {
    if rs == [] then s
    else Next(distance, safeZoneRadius, Run(distance, safeZoneRadius, s, rs[..|rs| - 1]), rs[|rs| - 1])
  }

  /** Once captured, the target is never overwritten. */
  lemma {:induction false} TargetNeverOverwritten(distance: Metric, safeZoneRadius: real, s: TrackerState, rs: seq<Reading>)
    requires s.target.Some?
    ensures Run(distance, safeZoneRadius, s, rs).target == s.target
  {
    if rs != [] {
      TargetNeverOverwritten(distance, safeZoneRadius, s, rs[..|rs| - 1]);
    }
  }

  /** After a run of readings the latch holds whether the user was inside at
      the last complete reading, or its old value when there was none. */
  lemma {:induction false} LatchFollowsLastCompleteReading(distance: Metric, safeZoneRadius: real, s: TrackerState, rs: seq<Reading>)
    ensures (forall i :: 0 <= i < |rs| ==> !Complete(rs[i])) ==> Run(distance, safeZoneRadius, s, rs) == s
    ensures forall i :: 0 <= i < |rs| && Complete(rs[i]) && (forall j :: i < j < |rs| ==> !Complete(rs[j])) ==>
      (Run(distance, safeZoneRadius, s, rs).wasInside <==> IsInside(distance, safeZoneRadius, rs[i]))
  {
    if rs != [] {
      var init := rs[..|rs| - 1];
      LatchFollowsLastCompleteReading(distance, safeZoneRadius, s, init);
      forall i | 0 <= i < |rs| && Complete(rs[i]) && (forall j :: i < j < |rs| ==> !Complete(rs[j]))
        ensures Run(distance, safeZoneRadius, s, rs).wasInside <==> IsInside(distance, safeZoneRadius, rs[i])
      {
        if i < |rs| - 1 {
          assert init[i] == rs[i];
          forall j | i < j < |init| ensures !Complete(init[j]) {
            assert init[j] == rs[j];
          }
        }
      }
      if forall i :: 0 <= i < |rs| ==> !Complete(rs[i]) {
        forall i | 0 <= i < |init| ensures !Complete(init[i]) {
          assert init[i] == rs[i];
        }
      }
    }
  }

  /** A user who is inside, and whose every later complete reading is still
      inside, never triggers a capture: the target stays what it was. */
  lemma {:induction false} StayingInsideNeverCaptures(distance: Metric, safeZoneRadius: real, s: TrackerState, rs: seq<Reading>)
    requires s.wasInside
    requires forall i :: 0 <= i < |rs| && Complete(rs[i]) ==> IsInside(distance, safeZoneRadius, rs[i])
    ensures Run(distance, safeZoneRadius, s, rs).wasInside
    ensures Run(distance, safeZoneRadius, s, rs).target == s.target
  {
    if rs != [] {
      var init := rs[..|rs| - 1];
      forall i | 0 <= i < |init| && Complete(init[i]) ensures IsInside(distance, safeZoneRadius, init[i]) {
        assert init[i] == rs[i];
      }
      StayingInsideNeverCaptures(distance, safeZoneRadius, s, init);
    }
  }

  /** A target captured during a run, starting without one, is the current
      position of a complete reading that was inside while the latch before
      it was clear and no target had been captured yet. */
  lemma {:induction false} CapturedTargetIsEnteringReading(distance: Metric, safeZoneRadius: real, s: TrackerState, rs: seq<Reading>)
    requires s.target.None?
    requires Run(distance, safeZoneRadius, s, rs).target.Some?
    ensures exists i :: (0 <= i < |rs| && Complete(rs[i]) && IsInside(distance, safeZoneRadius, rs[i]) &&
      !Run(distance, safeZoneRadius, s, rs[..i]).wasInside &&
      Run(distance, safeZoneRadius, s, rs[..i]).target.None? &&
      Run(distance, safeZoneRadius, s, rs).target == rs[i].current)
  {
    var last := |rs| - 1;
    var init := rs[..last];
    assert rs[..last] == init;
    if Run(distance, safeZoneRadius, s, init).target.Some? {
      CapturedTargetIsEnteringReading(distance, safeZoneRadius, s, init);
      var i :| 0 <= i < |init| && Complete(init[i]) && IsInside(distance, safeZoneRadius, init[i]) &&
        !Run(distance, safeZoneRadius, s, init[..i]).wasInside &&
        Run(distance, safeZoneRadius, s, init[..i]).target.None? &&
        Run(distance, safeZoneRadius, s, init).target == init[i].current;
      assert init[..i] == rs[..i];
      TargetNeverOverwritten(distance, safeZoneRadius, Run(distance, safeZoneRadius, s, init), [rs[last]]);
      assert [rs[last]][..0] == [];
      assert init[i] == rs[i];
    } else {
      assert Run(distance, safeZoneRadius, s, rs[..last]).target.None?;
    }
  }

  /** The effect's refs and the state cells it writes. */
  class Tracker {
    const distance: Metric
    const safeZoneRadius: real
    var wasInsideSafeArea: bool
    var targetPosition: Option<Position>
    var userWalkedDistance: real
    var distanceToSafeEdge: Option<real>

    function State(): TrackerState
      reads this
    {
      TrackerState(wasInsideSafeArea, targetPosition, userWalkedDistance, distanceToSafeEdge)
    }

    /** Mounting: the latch starts clear, no target, nothing walked, no
        distance reported. */
    constructor(distance: Metric, safeZoneRadius: real)
      ensures this.distance == distance && this.safeZoneRadius == safeZoneRadius
      ensures State() == TrackerState(false, None, 0.0, None)
    {
      this.distance := distance;
      this.safeZoneRadius := safeZoneRadius;
      wasInsideSafeArea := false;
      targetPosition := None;
      userWalkedDistance := 0.0;
      distanceToSafeEdge := None;
    }

    /** One run of the effect. */
    method Step(startPosition: Option<Position>, currentPosition: Option<Position>, safePoint: Option<Position>)
      modifies this
      ensures State() == Next(distance, safeZoneRadius, old(State()), Reading(startPosition, currentPosition, safePoint))
    {
      if currentPosition.None? || safePoint.None? {
        return;
      }
      var current := currentPosition.value;
      var distanceToSafePoint := distance(current.latitude, current.longitude, safePoint.value.latitude, safePoint.value.longitude);
      var distanceToEdge := distanceToSafePoint - safeZoneRadius;
      distanceToSafeEdge := Some(distanceToEdge);
      if startPosition.Some? {
        userWalkedDistance := distance(startPosition.value.latitude, startPosition.value.longitude, current.latitude, current.longitude);
      }
      var isInside := distanceToSafePoint <= safeZoneRadius;
      if targetPosition.None? && !wasInsideSafeArea && isInside {
        targetPosition := currentPosition;
      }
      wasInsideSafeArea := isInside;
    }
  }
}
