/**
 * The entry/exit transition of one scene object: while scroll progress is
 * inside the entry window the object fades in and moves from its entry
 * point to its resting position; inside the exit window it fades out and
 * moves on to its exit point; otherwise it rests, fully opaque.
 */
module Transitions {
  import opened Strings
  import opened Interpolation

  /**
   * `entry_from` or `exit_to`: when the window starts, how long it lasts and
   * the point the object comes from or goes to. A missing duration makes
   * `at + duration` NaN in the source, so that window never holds.
   */
  datatype Waypoint = Waypoint(at: real, duration: Option<real>, x: real, y: real)

  /** The `transition` record; either point may be absent. */
  datatype Transition = Transition(entryFrom: Option<Waypoint>, exitTo: Option<Waypoint>)

  /** What `calculateTransition` returns. */
  datatype TransitionState = TransitionState(position: Point, opacity: real)

  function WaypointPoint(w: Waypoint): Point
  {
    Point(w.x, w.y)
  }

  /** `progress >= at && progress <= at + duration`. */
  predicate InWindow(w: Waypoint, progress: real)
  {
    w.duration.Some? && w.at <= progress <= w.at + w.duration.value
  }

  /** Progress through a window. */
  function WindowProgress(w: Waypoint, progress: real): real
    requires w.duration.Some?
  {
    CalculateProgress(progress, w.at, w.at + w.duration.value)
  }

  /** `TransitionManager.calculateTransition(config, scrollProgress)` for `config.position` and `config.transition`. */
  function CalculateTransition(position: Point, transition: Transition, progress: real): (r: TransitionState)
    ensures 0.0 <= r.opacity <= 1.0
  {
    if transition.entryFrom.Some? && InWindow(transition.entryFrom.value, progress) then
      var entry := transition.entryFrom.value;
      var p := WindowProgress(entry, progress);
      TransitionState(LerpPosition(WaypointPoint(entry), position, p), p)
    else if transition.exitTo.Some? && InWindow(transition.exitTo.value, progress) then
      var exit := transition.exitTo.value;
      var p := WindowProgress(exit, progress);
      TransitionState(LerpPosition(position, WaypointPoint(exit), p), 1.0 - p)
    else
      TransitionState(position, 1.0)
  }

  /**
   * Inside a proper entry window the opacity is the share of the window
   * elapsed; the object starts transparent at its entry point and arrives
   * opaque at its resting position.
   */
  lemma EntryPhase(position: Point, transition: Transition, progress: real)
    requires transition.entryFrom.Some? && InWindow(transition.entryFrom.value, progress)
    requires transition.entryFrom.value.duration.value > 0.0
    ensures var e := transition.entryFrom.value;
      var r := CalculateTransition(position, transition, progress);
      r.opacity * e.duration.value == progress - e.at
      && (progress == e.at ==> r == TransitionState(WaypointPoint(e), 0.0))
      && (progress == e.at + e.duration.value ==> r == TransitionState(position, 1.0))
  {
    var e := transition.entryFrom.value;
    ProgressInRange(progress, e.at, e.at + e.duration.value);
    LerpPositionEnds(WaypointPoint(e), position, WindowProgress(e, progress));
  }

  /**
   * Inside a proper exit window that the entry window does not cover, the
   * opacity is the share of the window still to come; the object leaves its
   * resting position opaque and reaches its exit point transparent.
   */
  lemma ExitPhase(position: Point, transition: Transition, progress: real)
    requires !(transition.entryFrom.Some? && InWindow(transition.entryFrom.value, progress))
    requires transition.exitTo.Some? && InWindow(transition.exitTo.value, progress)
    requires transition.exitTo.value.duration.value > 0.0
    ensures var x := transition.exitTo.value;
      var r := CalculateTransition(position, transition, progress);
      (1.0 - r.opacity) * x.duration.value == progress - x.at
      && (progress == x.at ==> r == TransitionState(position, 1.0))
      && (progress == x.at + x.duration.value ==> r == TransitionState(WaypointPoint(x), 0.0))
  {
    var x := transition.exitTo.value;
    ProgressInRange(progress, x.at, x.at + x.duration.value);
    LerpPositionEnds(position, WaypointPoint(x), WindowProgress(x, progress));
  }

  /** The entry window is tested first: where both windows hold, the exit point plays no part. */
  lemma EntryWins(position: Point, transition: Transition, progress: real)
    requires transition.entryFrom.Some? && InWindow(transition.entryFrom.value, progress)
    ensures CalculateTransition(position, transition, progress)
      == CalculateTransition(position, Transition(transition.entryFrom, None), progress)
  {
  }

  /** Outside both windows the object rests at its position, fully opaque. */
  lemma Resting(position: Point, transition: Transition, progress: real)
    requires !(transition.entryFrom.Some? && InWindow(transition.entryFrom.value, progress))
    requires !(transition.exitTo.Some? && InWindow(transition.exitTo.value, progress))
    ensures CalculateTransition(position, transition, progress) == TransitionState(position, 1.0)
  {
  }

  /** During a transition the position stays inside the box spanned by its two end points. */
  lemma TransitionPositionBounded(position: Point, transition: Transition, progress: real)
    ensures var r := CalculateTransition(position, transition, progress);
      (transition.entryFrom.Some? && InWindow(transition.entryFrom.value, progress) ==>
        var e := WaypointPoint(transition.entryFrom.value);
        Min(e.x, position.x) <= r.position.x <= Max(e.x, position.x)
        && Min(e.y, position.y) <= r.position.y <= Max(e.y, position.y))
      && (!(transition.entryFrom.Some? && InWindow(transition.entryFrom.value, progress))
          && transition.exitTo.Some? && InWindow(transition.exitTo.value, progress) ==>
        var x := WaypointPoint(transition.exitTo.value);
        Min(position.x, x.x) <= r.position.x <= Max(position.x, x.x)
        && Min(position.y, x.y) <= r.position.y <= Max(position.y, x.y))
  {
    if transition.entryFrom.Some? && InWindow(transition.entryFrom.value, progress) {
      var e := transition.entryFrom.value;
      LerpPositionEnds(WaypointPoint(e), position, WindowProgress(e, progress));
    } else if transition.exitTo.Some? && InWindow(transition.exitTo.value, progress) {
      var x := transition.exitTo.value;
      LerpPositionEnds(position, WaypointPoint(x), WindowProgress(x, progress));
    }
  }

  /** `TransitionManager.isVisible(config, scrollProgress)`. */
  predicate IsVisible(transition: Transition, progress: real)
  {
    if transition.entryFrom.Some? && progress < transition.entryFrom.value.at then false
    else if transition.exitTo.Some? && transition.exitTo.value.duration.Some?
      && progress > transition.exitTo.value.at + transition.exitTo.value.duration.value then false
    else true
  }

  /** The entry window opens no later than the exit window and does not end after it. */
  predicate Ordered(transition: Transition)
  {
    transition.entryFrom.Some? && transition.exitTo.Some? ==>
      var e := transition.entryFrom.value;
      var x := transition.exitTo.value;
      e.at <= x.at
      && (e.duration.Some? && x.duration.Some? ==> e.at + e.duration.value <= x.at + x.duration.value)
  }

  /** For an ordered transition, an object in the middle of its entry or its exit is visible. */
  lemma VisibleWhileMoving(transition: Transition, progress: real)
    requires Ordered(transition)
    requires (transition.entryFrom.Some? && InWindow(transition.entryFrom.value, progress))
      || (transition.exitTo.Some? && InWindow(transition.exitTo.value, progress))
    ensures IsVisible(transition, progress)
  {
  }

  /**
   * The two functions disagree outside the windows: wherever `isVisible`
   * reports an ordered transition's object hidden (before its entry, after
   * its exit), `calculateTransition` rests it at its position fully opaque.
   */
  lemma HiddenYetOpaque(position: Point, transition: Transition, progress: real)
    requires Ordered(transition)
    requires !IsVisible(transition, progress)
    ensures CalculateTransition(position, transition, progress) == TransitionState(position, 1.0)
  {
  }

  /** Visibility holds on one unbroken stretch of progress: between two visible moments the object stays visible. */
  lemma VisibleStretch(transition: Transition, p: real, q: real, r: real)
    requires p <= q <= r
    requires IsVisible(transition, p) && IsVisible(transition, r)
    ensures IsVisible(transition, q)
  {
  }

  /** With no exit point, or one without a duration, the object is visible exactly from its entry on. */
  lemma VisibleWithoutExit(transition: Transition, progress: real)
    requires transition.exitTo.None? || transition.exitTo.value.duration.None?
    ensures IsVisible(transition, progress)
      <==> (transition.entryFrom.None? || progress >= transition.entryFrom.value.at)
  {
  }
}
