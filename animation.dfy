/**
 * The settle animator (`BtnAnimation`): a session carries the knob with
 * constant-acceleration kinematics, one tick per frame, until it crosses a
 * rest position, then queues the matching checked-state commit.
 *
 * `left` is the knob centre at rest while on and `right` the one while off.
 * Times are milliseconds; positions are pixels and velocities pixels per
 * second, as reals.
 */
module Animation {
  import opened Options

  /** `ANIMATION_FRAME_DURATION`: 1000 / 60 in integer division. */
  const FrameDuration: int := 1000 / 60

  /** `INIT_VELOCITY`, in pixels per second. */
  const InitVelocity: real := 400.0

  /** How far the knob travels at `InitVelocity` during one frame. */
  const Stride: real := InitVelocity * FrameDuration as real / 1000.0

  /**
   * The animator's fields: `mAnimating`, `mAnimationPosition`,
   * `mAnimatedVelocity`, `mAnimatedAcceleration`, `mAnimationLastTime` and
   * `mCurrentAnimationTime` (the deadline of the next tick).
   */
  datatype Session = Session(animating: bool, position: real, velocity: real, acceleration: real,
                             lastTime: int, deadline: int)

  /** What one tick leaves: the session, the commit it queues and the next tick it schedules. */
  datatype Step = Step(session: Session, commit: Option<bool>, next: Option<int>)

  /** What a run of ticks leaves: the session and the commits queued, in order. */
  datatype Trace = Trace(session: Session, commits: seq<bool>)

  function Seconds(from: int, to: int): real
  {
    (to - from) as real / 1000.0
  }

  lemma FrameDurationValue()
    ensures FrameDuration == 16 && Stride == 6.4
  {
  }

  /**
   * `increment`: advance position and velocity by the time since the last
   * tick. With no acceleration the velocity is kept and the knob moves
   * uniformly.
   */
  function Increment(s: Session, now: int): (s': Session)
    ensures s'.animating == s.animating && s'.deadline == s.deadline
    ensures s'.acceleration == s.acceleration && s'.lastTime == now
    ensures s.acceleration == 0.0 ==>
      s'.velocity == s.velocity && s'.position == s.position + s.velocity * Seconds(s.lastTime, now)
  {
    var t := Seconds(s.lastTime, now);
    s.(position := s.position + s.velocity * t + 0.5 * s.acceleration * t * t,
       velocity := s.velocity + s.acceleration * t,
       lastTime := now)
  }

  /**
   * `start`: launch a session from the knob's current position toward on
   * (negative velocity) or off (positive velocity), with its first tick one
   * frame from now.
   */
  function Start(s: Session, from: real, turnOn: bool, now: int): (s': Session)
    ensures s'.animating && s'.position == from && s'.lastTime == now
    ensures s'.deadline == now + FrameDuration
    ensures s'.velocity < 0.0 <==> turnOn
    ensures s'.velocity == InitVelocity || s'.velocity == -InitVelocity
    ensures s'.acceleration == s.acceleration
  {
    Session(true, from, if turnOn then -InitVelocity else InitVelocity, s.acceleration,
            now, now + FrameDuration)
  }

  /**
   * `doAnimation`: one tick. A stopped session is left alone. Otherwise the
   * knob is advanced; reaching `left` stops the session there with a commit
   * of true, else reaching `right` stops it there with a commit of false,
   * else the next tick is scheduled one frame after the previous deadline.
   */
  function Tick(s: Session, left: real, right: real, now: int): (r: Step)
    ensures !s.animating ==> r == Step(s, None, None)
    ensures s.animating ==> r.session.lastTime == now
    ensures s.animating ==> (r.session.animating <==> r.commit.None?)
    ensures r.session.animating <==> r.next.Some?
    ensures r.commit == Some(true) ==> r.session.position == left
    ensures r.commit == Some(false) ==> r.session.position == right
    ensures r.session.animating ==>
      left < r.session.position < right &&
      r.session.deadline == s.deadline + FrameDuration && r.next == Some(r.session.deadline)
    ensures s.animating ==>
      var m := Increment(s, now);
      (m.position <= left ==> r.commit == Some(true)) &&
      (left < m.position && m.position >= right ==> r.commit == Some(false)) &&
      (left < m.position < right ==> r.session == m.(deadline := s.deadline + FrameDuration))
  {
    if !s.animating then Step(s, None, None)
    else
      var moved := Increment(s, now);
      if moved.position <= left then
        Step(moved.(animating := false, position := left), Some(true), None)
      else if moved.position >= right then
        Step(moved.(animating := false, position := right), Some(false), None)
      else
        var next := moved.(deadline := moved.deadline + FrameDuration);
        Step(next, None, Some(next.deadline))
  }

  /** The ticks delivered at the times `nows`, one after the other. */
  function Run(s: Session, left: real, right: real, nows: seq<int>): Trace
    decreases |nows|
  {
    if nows == [] then Trace(s, [])
    else
      var step := Tick(s, left, right, nows[0]);
      var rest := Run(step.session, left, right, nows[1..]);
      Trace(rest.session, (if step.commit.Some? then [step.commit.value] else []) + rest.commits)
  }

  /** A session in flight as `start` leaves it: no acceleration, full speed one way. */
  predicate Launched(s: Session)
  {
    s.animating && s.acceleration == 0.0 && (s.velocity == InitVelocity || s.velocity == -InitVelocity)
  }

  /** The handler delivers each tick no earlier than its deadline. */
  predicate OnSchedule(s: Session, nows: seq<int>)
  {
    forall i :: 0 <= i < |nows| ==> nows[i] >= s.deadline + FrameDuration * i
  }

  /** Ticks delivered to a stopped session change nothing and queue nothing. */
  lemma {:induction false} StoppedStaysStopped(s: Session, left: real, right: real, nows: seq<int>)
    requires !s.animating
    ensures Run(s, left, right, nows) == Trace(s, [])
    decreases |nows|
  {
    if nows != [] {
      StoppedStaysStopped(s, left, right, nows[1..]);
    }
  }

  /**
   * A running session either is still in flight with nothing committed, or
   * has stopped on a rest position having queued exactly one commit: true
   * at `left`, false at `right`.
   */
  lemma {:induction false} CommitsOnce(s: Session, left: real, right: real, nows: seq<int>)
    requires s.animating
    ensures var r := Run(s, left, right, nows);
      (r.session.animating && r.commits == []) ||
      (!r.session.animating && |r.commits| == 1 &&
       r.session.position == (if r.commits[0] then left else right))
    decreases |nows|
  {
    if nows != [] {
      var step := Tick(s, left, right, nows[0]);
      if step.session.animating {
        CommitsOnce(step.session, left, right, nows[1..]);
      } else {
        StoppedStaysStopped(step.session, left, right, nows[1..]);
      }
    }
  }

  /**
   * One tick of a launched session keeps it on the straight line through
   * `(t0, p0)` with its own velocity.
   */
  lemma TickOnLine(s: Session, left: real, right: real, now: int, p0: real, t0: int)
    requires Launched(s)
    requires s.position == p0 + s.velocity * Seconds(t0, s.lastTime)
    ensures var m := Increment(s, now);
      m.position == p0 + s.velocity * Seconds(t0, now) && m.velocity == s.velocity
  {
  }

  /**
   * While a launched session is still in flight after some ticks, it has
   * kept its velocity, lies strictly between the rest positions and sits on
   * the straight line through its launch point `(t0, p0)`: the position
   * depends only on the time of the latest tick.
   */
  lemma {:induction false} InFlightOnLine(s: Session, left: real, right: real, nows: seq<int>, p0: real, t0: int)
    requires Launched(s)
    requires s.position == p0 + s.velocity * Seconds(t0, s.lastTime)
    requires nows != [] && Run(s, left, right, nows).session.animating
    ensures var f := Run(s, left, right, nows).session;
      Launched(f) && f.velocity == s.velocity && left < f.position < right &&
      f.lastTime == nows[|nows| - 1] && f.position == p0 + s.velocity * Seconds(t0, f.lastTime)
    decreases |nows|
  {
    var step := Tick(s, left, right, nows[0]);
    if !step.session.animating {
      StoppedStaysStopped(step.session, left, right, nows[1..]);
      assert false;
    }
    TickOnLine(s, left, right, nows[0], p0, t0);
    if |nows| > 1 {
      InFlightOnLine(step.session, left, right, nows[1..], p0, t0);
    }
  }

  /**
   * A launched session never stops on the wrong side: heading on from no
   * further right than `right` it can only commit true, heading off from no
   * further left than `left` it can only commit false, as long as every
   * tick comes after the launch time `t0`.
   */
  lemma {:induction false} KeepsItsSide(s: Session, left: real, right: real, nows: seq<int>, p0: real, t0: int)
    requires Launched(s)
    requires s.position == p0 + s.velocity * Seconds(t0, s.lastTime)
    requires forall i :: 0 <= i < |nows| ==> nows[i] > t0
    requires s.velocity < 0.0 ==> p0 <= right
    requires s.velocity > 0.0 ==> left <= p0
    ensures var commits := Run(s, left, right, nows).commits;
      commits == [] || commits == [s.velocity < 0.0]
    decreases |nows|
  {
    if nows != [] {
      var step := Tick(s, left, right, nows[0]);
      TickOnLine(s, left, right, nows[0], p0, t0);
      if step.session.animating {
        KeepsItsSide(step.session, left, right, nows[1..], p0, t0);
      } else {
        StoppedStaysStopped(step.session, left, right, nows[1..]);
      }
    }
  }

  /**
   * The number of ticks that surely carries the knob over a distance `d`:
   * at least one, and enough strides to cover `d`.
   */
  function TicksToCover(d: real): (k: nat)
    ensures k >= 1 && k as real * Stride >= d
  {
    FrameDurationValue();
    if d <= Stride then 1 else (d / Stride).Floor + 1
  }

  /**
   * A freshly launched session still in flight after `n` ticks on schedule
   * has travelled at least `n` strides in its direction.
   */
  lemma InFlightTravelled(s: Session, left: real, right: real, nows: seq<int>)
    requires Launched(s) && s.deadline == s.lastTime + FrameDuration
    requires OnSchedule(s, nows)
    requires nows != [] && Run(s, left, right, nows).session.animating
    ensures var f := Run(s, left, right, nows).session;
      left < f.position < right &&
      (s.velocity < 0.0 ==> f.position <= s.position - |nows| as real * Stride) &&
      (s.velocity > 0.0 ==> f.position >= s.position + |nows| as real * Stride)
  {
    var f := Run(s, left, right, nows).session;
    var n := |nows|;
    InFlightOnLine(s, left, right, nows, s.position, s.lastTime);
    FrameDurationValue();
    assert nows[n - 1] >= s.deadline + FrameDuration * (n - 1);
    var elapsed := Seconds(s.lastTime, f.lastTime);
    assert elapsed >= n as real * 0.016;
    if s.velocity < 0.0 {
      assert f.position == s.position - 400.0 * elapsed;
    } else {
      assert f.position == s.position + 400.0 * elapsed;
    }
  }

  /**
   * A freshly launched session whose ticks come on schedule stops after at
   * most enough ticks to cover the distance to the rest position it heads
   * for: the knob moves at least one stride per elapsed frame.
   */
  lemma GlideStops(s: Session, left: real, right: real, nows: seq<int>)
    requires Launched(s) && s.deadline == s.lastTime + FrameDuration
    requires OnSchedule(s, nows)
    requires |nows| >= 1
    requires |nows| as real * Stride >= (if s.velocity < 0.0 then s.position - left else right - s.position)
    ensures !Run(s, left, right, nows).session.animating
  {
    if Run(s, left, right, nows).session.animating {
      InFlightTravelled(s, left, right, nows);
      assert false;
    }
  }

  /**
   * The settle animation as `start` launches it, from a knob between
   * ordered rest positions and with ticks on schedule, never commits the
   * wrong state; and once it has had `TicksToCover(right - left)` ticks it
   * has stopped on the rest position it headed for, having queued exactly
   * one commit, of the state it headed for.
   */
  lemma SettlesOnTarget(s: Session, from: real, turnOn: bool, t0: int, left: real, right: real, nows: seq<int>)
    requires s.acceleration == 0.0
    requires left <= from <= right
    requires OnSchedule(Start(s, from, turnOn, t0), nows)
    ensures var r := Run(Start(s, from, turnOn, t0), left, right, nows);
      r.commits == [] || r.commits == [turnOn]
    ensures var r := Run(Start(s, from, turnOn, t0), left, right, nows);
      |nows| >= TicksToCover(right - left) ==>
        !r.session.animating && r.commits == [turnOn] && r.session.position == (if turnOn then left else right)
  {
    var launched := Start(s, from, turnOn, t0);
    FrameDurationValue();
    forall i | 0 <= i < |nows|
      ensures nows[i] > t0
    {
      assert nows[i] >= launched.deadline + FrameDuration * i;
    }
    KeepsItsSide(launched, left, right, nows, from, t0);
    if |nows| >= TicksToCover(right - left) {
      GlideStops(launched, left, right, nows);
      CommitsOnce(launched, left, right, nows);
    }
  }

  /**
   * With the rest positions out of order (`right < left`), every running
   * session stops on its very first tick.
   */
  lemma SwappedBoundsStopAtOnce(s: Session, left: real, right: real, now: int)
    requires s.animating && right < left
    ensures !Tick(s, left, right, now).session.animating
    ensures Tick(s, left, right, now).commit ==
      Some(Increment(s, now).position <= left)
  {
  }
}
