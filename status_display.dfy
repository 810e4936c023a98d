/// The status display: it raises the "Ghost Detected!" alert once each time
/// a target position appears, using the `wasTargetSet` latch, and renders
/// either that status or the distance to the safe point.

module StatusDisplay {
  import opened Types

  /** What one run of the alert effect does: whether it raised the alert,
      and the latch afterwards. */
  datatype AlertStep = AlertStep(raised: bool, latch: bool)

  /** The alert effect, run when `targetPosition` changes. */
  function OnTargetChange(wasTargetSet: bool, target: Option<Position>): AlertStep
  {
    if target.Some? && !wasTargetSet then AlertStep(true, true)
    else if target.None? then AlertStep(false, false)
    else AlertStep(false, wasTargetSet)
  }

  /** The alert is raised exactly when a target is present and the latch is
      clear, and afterwards the latch records whether a target is present. */
  lemma AlertOnRisingEdge(wasTargetSet: bool, target: Option<Position>)
    ensures OnTargetChange(wasTargetSet, target).raised <==> target.Some? && !wasTargetSet
    ensures OnTargetChange(wasTargetSet, target).latch <==> target.Some?
  {
  }

  /** The latch after the effect has run for each target of `targets` in turn. */
  function LatchAfter(wasTargetSet: bool, targets: seq<Option<Position>>): bool
  {
    if targets == [] then wasTargetSet
    else OnTargetChange(LatchAfter(wasTargetSet, targets[..|targets| - 1]), targets[|targets| - 1]).latch
  }

  /** How many alerts the effect raises over `targets`. */
  function AlertsRaised(wasTargetSet: bool, targets: seq<Option<Position>>): nat
  {
    if targets == [] then 0
    else (AlertsRaised(wasTargetSet, targets[..|targets| - 1]) +
          if OnTargetChange(LatchAfter(wasTargetSet, targets[..|targets| - 1]), targets[|targets| - 1]).raised then 1 else 0)
  }

  /** Whether a target is present at position `i`, `i == -1` standing for the
      latch the run starts from. */
  predicate PresentAt(wasTargetSet: bool, targets: seq<Option<Position>>, i: int)
    requires -1 <= i < |targets|
  {
    if i == -1 then wasTargetSet else targets[i].Some?
  }

  /** The number of positions at which a target appears where none was
      present just before. */
  function RisingEdges(wasTargetSet: bool, targets: seq<Option<Position>>): nat
  {
    if targets == [] then 0
    else (RisingEdges(wasTargetSet, targets[..|targets| - 1]) +
          if targets[|targets| - 1].Some? && !PresentAt(wasTargetSet, targets, |targets| - 2) then 1 else 0)
  }

  /** After any non-empty run the latch says whether the last target is present. */
  lemma {:induction false} LatchTracksLastTarget(wasTargetSet: bool, targets: seq<Option<Position>>)
    ensures LatchAfter(wasTargetSet, targets) == PresentAt(wasTargetSet, targets, |targets| - 1)
  {
    if targets != [] {
      LatchTracksLastTarget(wasTargetSet, targets[..|targets| - 1]);
    }
  }

  /** One alert per appearance of a target: the alerts raised over a run are
      exactly its rising edges, so an alert is raised again after the target
      is cleared and set anew. */
  lemma {:induction false} OneAlertPerAppearance(wasTargetSet: bool, targets: seq<Option<Position>>)
    ensures AlertsRaised(wasTargetSet, targets) == RisingEdges(wasTargetSet, targets)
  {
    if targets != [] {
      var init := targets[..|targets| - 1];
      OneAlertPerAppearance(wasTargetSet, init);
      LatchTracksLastTarget(wasTargetSet, init);
      if |targets| >= 2 {
        assert init[|init| - 1] == targets[|targets| - 2];
      }
    }
  }

  /** While the target stays set, no alert is raised after the first. */
  lemma {:induction false} NoRepeatWhileTargetSet(wasTargetSet: bool, targets: seq<Option<Position>>)
    requires forall i :: 0 <= i < |targets| ==> targets[i].Some?
    ensures AlertsRaised(wasTargetSet, targets) == if wasTargetSet || targets == [] then 0 else 1
  {
    if targets != [] {
      var init := targets[..|targets| - 1];
      assert forall i :: 0 <= i < |init| ==> init[i] == targets[i];
      NoRepeatWhileTargetSet(wasTargetSet, init);
      LatchTracksLastTarget(wasTargetSet, init);
    }
  }

  /** The distance shown to the safe point: unknown when the current position
      or the safe point is missing. */
  function DistanceToSafePoint(distance: Metric, current: Option<Position>, safePoint: Option<Position>): Option<real>
  {
    if current.Some? && safePoint.Some? then Some(Between(distance, current.value, safePoint.value)) else None
  }

  /** What the component renders. */
  datatype Status = GhostDetected | Distances(toSafePoint: real, walked: real)

  function Render(distance: Metric, target: Option<Position>, current: Option<Position>,
                  safePoint: Option<Position>, userWalkedDistance: real): Status
  {
    if target.Some? then GhostDetected
    else Distances(var d := DistanceToSafePoint(distance, current, safePoint); if d.Some? then d.value else 0.0,
                   userWalkedDistance)
  }

  /** "Ghost Detected!" is shown exactly when a target is set; otherwise the
      distance to the safe point is shown, 0 when it is unknown, with the
      walked distance. */
  lemma RenderShowsStatus(distance: Metric, target: Option<Position>, current: Option<Position>,
                          safePoint: Option<Position>, userWalkedDistance: real)
    ensures Render(distance, target, current, safePoint, userWalkedDistance).GhostDetected? <==> target.Some?
    ensures target.None? && (current.None? || safePoint.None?) ==>
      Render(distance, target, current, safePoint, userWalkedDistance) == Distances(0.0, userWalkedDistance)
    ensures target.None? && current.Some? && safePoint.Some? ==>
      Render(distance, target, current, safePoint, userWalkedDistance) ==
        Distances(distance(current.value.latitude, current.value.longitude,
                           safePoint.value.latitude, safePoint.value.longitude), userWalkedDistance)
  {
  }

  /** The component's `wasTargetSet` ref. */
  class Display {
    var wasTargetSet: bool

    constructor()
      ensures !wasTargetSet
    {
      wasTargetSet := false;
    }

    /** The alert effect; `alertRaised` stands for the call to `Alert.alert`. */
    method OnTarget(targetPosition: Option<Position>) returns (alertRaised: bool)
      modifies this
      ensures AlertStep(alertRaised, wasTargetSet) == OnTargetChange(old(wasTargetSet), targetPosition)
    {
      alertRaised := false;
      if targetPosition.Some? && !wasTargetSet {
        alertRaised := true;
        wasTargetSet := true;
      } else if targetPosition.None? {
        wasTargetSet := false;
      }
    }
  }
}
