/**
 * From the release of a gesture to the commit it ends in: the gesture
 * interpreter's decision handed to the settle animator.
 */
module Release {
  import opened Options
  import opened Gesture
  import opened Animation

  /**
   * A release after a move between ordered rest positions, whether a tap
   * or a drag, launches the animation from the dragged knob toward
   * `ReleaseTarget`: toward the opposite state for a tap, toward the nearer
   * rest position for a drag. With ticks on schedule the animation commits
   * nothing but that state, and after `TicksToCover(right - left)` ticks it
   * has stopped on that state's rest position with exactly that one commit.
   */
  lemma ReleaseSettles(s: Session, checked: bool, startX: real, x: real, downX: real,
                       left: real, right: real, tap: bool, t0: int, nows: seq<int>)
    requires s.acceleration == 0.0 && left <= right
    requires var c := MoveX(startX, x, downX, left, right);
      OnSchedule(Start(s, c, ReleaseTarget(tap, checked, TurningOff(c, left, right)), t0), nows)
    ensures var c := MoveX(startX, x, downX, left, right);
      var turnOn := ReleaseTarget(tap, checked, TurningOff(c, left, right));
      (tap ==> turnOn == !checked) && (!tap ==> (turnOn <==> c - left <= right - c))
    ensures var c := MoveX(startX, x, downX, left, right);
      var turnOn := ReleaseTarget(tap, checked, TurningOff(c, left, right));
      var r := Run(Start(s, c, turnOn, t0), left, right, nows);
      (r.commits == [] || r.commits == [turnOn]) &&
      (|nows| >= TicksToCover(right - left) ==>
         !r.session.animating && r.commits == [turnOn] && r.session.position == (if turnOn then left else right))
  {
    var c := MoveX(startX, x, downX, left, right);
    SettlesOnTarget(s, c, ReleaseTarget(tap, checked, TurningOff(c, left, right)), t0, left, right, nows);
  }

  /**
   * With the rest positions out of order, as `initView` gives them whenever
   * the mask is wider than the knob, a drag released after a move commits
   * off on the animation's first tick, whichever way the finger went.
   */
  lemma SwappedDragCommitsOff(s: Session, checked: bool, startX: real, x: real, downX: real,
                              left: real, right: real, t0: int, now: int)
    requires s.acceleration == 0.0 && right < left
    requires now > t0
    ensures var c := MoveX(startX, x, downX, left, right);
      var launched := Start(s, c, ReleaseTarget(false, checked, TurningOff(c, left, right)), t0);
      Tick(launched, left, right, now).commit == Some(false)
  {
  }
}
