/**
 * The gesture interpreter's arithmetic: where a drag puts the knob, which
 * way a drag is heading, and whether a release ends a tap.
 *
 * `left` is the knob centre at rest while on (`btnLeftX`) and `right` the
 * one while off (`btnRightX`). Nothing here assumes `left <= right`.
 */
module Gesture {

  function Abs(r: real): (a: real)
    ensures a >= 0.0 && (a == r || a == -r)
  {
    if r < 0.0 then -r else r
  }

  /**
   * ACTION_MOVE: the knob follows the finger from where it stood at the
   * press, is first clamped down to `right` and then clamped up to `left`.
   * The knob never ends left of `left`; it stays between the rest positions
   * only when they are ordered, and when they are not it always lands on `left`.
   */
  function MoveX(startX: real, x: real, downX: real, left: real, right: real): (c: real)
    ensures c >= left
    ensures left <= right ==> left <= c <= right
    ensures left <= right && left <= startX + x - downX <= right ==> c == startX + x - downX
    ensures left <= right && startX + x - downX <= left ==> c == left
    ensures left <= right && startX + x - downX >= right ==> c == right
    ensures right < left ==> c == left
  {
    var raw := startX + x - downX;
    var capped := if raw >= right then right else raw;
    if capped <= left then left else capped
  }

  /**
   * `isTurningOff`: the knob is strictly past the midpoint of the two rest
   * positions, that is strictly nearer the off position than the on one.
   */
  function TurningOff(cur: real, left: real, right: real): (off: bool)
    ensures off <==> right - cur < cur - left
  {
    cur > (right - left) / 2.0 + left
  }

  /**
   * ACTION_UP: a release is a tap when the finger stayed strictly within the
   * touch slop of the press point on both axes and the press lasted strictly
   * less than the click timeout.
   */
  function IsTap(x: real, y: real, downX: real, downY: real, elapsed: int, slop: int, timeout: int): (tap: bool)
    ensures tap <==> (downX - slop as real < x < downX + slop as real &&
                      downY - slop as real < y < downY + slop as real &&
                      elapsed < timeout)
  {
    Abs(y - downY) < slop as real && Abs(x - downX) < slop as real && elapsed < timeout
  }

  /**
   * ACTION_UP: the direction the settle animation takes (true: toward on).
   * A tap reverses the checked state; a drag continues the way it was heading.
   */
  function ReleaseTarget(tap: bool, checked: bool, turningOff: bool): bool
  {
    if tap then !checked else !turningOff
  }

  /**
   * A drag released after a move between ordered rest positions heads for
   * the nearer one (ties go to on), whichever state the switch started in.
   */
  lemma DragHeadsToNearerSide(checked: bool, startX: real, x: real, downX: real, left: real, right: real)
    requires left <= right
    ensures var c := MoveX(startX, x, downX, left, right);
      ReleaseTarget(false, checked, TurningOff(c, left, right)) <==> c - left <= right - c
  {
  }

  /** With rest positions 10 (on) and 90 (off), a drag from 90 to 40 heads on. */
  lemma DragExample()
    ensures MoveX(90.0, 40.0, 90.0, 10.0, 90.0) == 40.0
    ensures !TurningOff(40.0, 10.0, 90.0)
    ensures ReleaseTarget(false, false, TurningOff(40.0, 10.0, 90.0))
  {
  }
}
