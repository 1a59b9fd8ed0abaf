/**
 * The switch widget as an object: its checked state and re-entrancy guard,
 * the gesture fields, the settle animator's fields and the messages it has
 * queued on its handler.
 *
 * The clock is the parameter `now` (milliseconds). The handler's queue is
 * explicit state: the pending animation tick, the pending delayed commits
 * and the pending click tasks; the methods `HandleTick`, `RunPendingCommit`
 * and `RunPendingClick` are the handler delivering one of them. The
 * listener is a function from the new checked value to the `setChecked`
 * calls it makes in reply. `redraws` counts `invalidate()` requests and
 * `notifications` logs every value the listener was called with.
 */
module Switch {
  import opened Options
  import opened Geometry
  import opened Gesture
  import opened Animation
  import opened Notify

  /** The `MotionEvent` actions the widget tells apart; any other only redraws. */
  datatype Action = Down | Move | Up | OtherAction

  class SwitchButton {
    // Geometry and configuration, fixed by the constructor (`initView`).
    const btnWidth: real
    const maskWidth: real
    const maskHeight: real
    /** Knob centre at rest while on. */
    const btnLeftX: real
    /** Knob centre at rest while off. */
    const btnRightX: real
    const touchSlop: int
    const clickTimeout: int
    /** `mAnimatedAcceleration` is never assigned: Java's default 0. */
    const acceleration: real := 0.0

    // Checked state.
    var checked: bool
    var broadcasting: bool
    var listener: Option<bool -> seq<bool>>
    var enabled: bool
    var alpha: int

    // Gesture state.
    var downX: real
    var downY: real
    var btnStartX: real
    var turningOff: bool
    /** The knob is drawn with the pressed bitmap. */
    var pressed: bool
    var btnCurX: real
    var btnTopLeftX: real

    // Settle animator (`BtnAnimation`).
    var animating: bool
    var position: real
    var velocity: real
    var lastTime: int
    var deadline: int

    // Messages queued on the handler.
    var pendingTicks: seq<int>
    var pendingCommits: seq<bool>
    var pendingClicks: nat

    ghost var notifications: seq<bool>
    ghost var redraws: nat

    /** The animator's fields as one value. */
    function AnimationState(): Session
      reads this
    {
      Session(animating, position, velocity, acceleration, lastTime, deadline)
    }

    /** The fields a press records. */
    function PressState(): (real, real, real, bool)
      reads this
    {
      (downX, downY, btnStartX, pressed)
    }

    /** The geometry `initView` fixes: whole bitmap sizes and the rest positions they give. */
    ghost predicate Configured()
    {
      btnRightX == OffX(btnWidth) && btnLeftX == OnX(btnWidth, maskWidth) &&
      maskWidth >= 0.0 && maskWidth.Floor as real == maskWidth &&
      maskHeight >= 0.0 && maskHeight.Floor as real == maskHeight
    }

    /** The knob is drawn where its centre is, and the alpha follows the enabled state. */
    ghost predicate Consistent()
      reads this
    {
      Configured() &&
      btnTopLeftX == TopLeft(btnWidth, btnCurX) &&
      alpha == Alpha(enabled)
    }

    /**
     * With ordered rest positions, the knob and a running animation stay
     * between them.
     */
    ghost predicate KnobInRange()
      reads this
    {
      btnLeftX <= btnRightX ==>
        btnLeftX <= btnCurX <= btnRightX && (animating ==> btnLeftX <= position <= btnRightX)
    }

    /**
     * The knob stays in range, and at most one animation tick is ever
     * pending: one exactly while animating, due at the deadline.
     */
    ghost predicate Valid()
      reads this
    {
      Consistent() && KnobInRange() && pendingTicks == (if animating then [deadline] else [])
    }

    /**
     * `initView`: the rest positions come from the bitmap widths, the click
     * timeout is the pressed-state duration plus the tap timeout, and the
     * switch starts off with its knob at rest.
     */
    constructor (btnW: nat, maskW: nat, maskH: nat, slop: nat, pressedStateDuration: nat, tapTimeout: nat)
      ensures Valid()
      ensures btnWidth == btnW as real && maskWidth == maskW as real && maskHeight == maskH as real
      ensures btnRightX == btnW as real / 2.0 && btnLeftX == maskW as real - btnW as real / 2.0
      ensures touchSlop == slop && clickTimeout == pressedStateDuration + tapTimeout
      ensures !checked && !broadcasting && listener == None && enabled && alpha == 255
      ensures !turningOff && !pressed && btnCurX == btnRightX
      ensures !animating && pendingTicks == [] && pendingCommits == [] && pendingClicks == 0
      ensures notifications == [] && redraws == 0
    {
      btnWidth := btnW as real;
      maskWidth := maskW as real;
      maskHeight := maskH as real;
      btnRightX := btnW as real / 2.0;
      btnLeftX := maskW as real - btnW as real / 2.0;
      touchSlop := slop;
      clickTimeout := pressedStateDuration + tapTimeout;
      checked, broadcasting, listener := false, false, None;
      enabled, alpha := true, 255;
      downX, downY, btnStartX, turningOff, pressed := 0.0, 0.0, 0.0, false, false;
      btnCurX := btnW as real / 2.0;
      btnTopLeftX := TopLeft(btnW as real, btnW as real / 2.0);
      animating, position, velocity, lastTime, deadline := false, 0.0, 0.0, 0, 0;
      pendingTicks, pendingCommits, pendingClicks := [], [], 0;
      notifications, redraws := [], 0;
    }

    /** `setEnabled`: opaque when enabled, half transparent when not. */
    method SetEnabled(e: bool)
      requires Valid()
      modifies this`enabled, this`alpha
      ensures Valid()
      ensures enabled == e && alpha == (if e then 255 else 128)
    {
      alpha := Alpha(e);
      enabled := e;
    }

    method IsChecked() returns (c: bool)
      ensures c == checked
    {
      c := checked;
    }

    method SetOnCheckedChangeListener(l: Option<bool -> seq<bool>>)
      modifies this`listener
      ensures listener == l
    {
      listener := l;
    }

    /**
     * `setChecked`: setting the value already held changes nothing, redraws
     * nothing and notifies nobody. A new value is stored with the knob moved
     * to its rest position. Outside a notification the listener is then
     * called once, with the new value; the `setChecked` calls it makes in
     * reply take effect but notify nobody, and the guard is lowered again
     * afterwards.
     */
    method SetChecked(v: bool)
      requires Valid()
      modifies this`checked, this`btnCurX, this`btnTopLeftX, this`broadcasting, this`notifications, this`redraws
      decreases if broadcasting then 0 else 2
      ensures Valid()
      ensures broadcasting == old(broadcasting)
      ensures old(checked) == v ==>
        checked == v && btnCurX == old(btnCurX) && redraws == old(redraws) && notifications == old(notifications)
      ensures old(checked) != v ==> btnCurX == RestX(checked, btnLeftX, btnRightX)
      ensures old(checked) != v && (old(broadcasting) || listener.None?) ==>
        checked == v && redraws == old(redraws) + 1 && notifications == old(notifications)
      ensures old(checked) != v && !old(broadcasting) && listener.Some? ==>
        notifications == old(notifications) + [v] &&
        checked == Final(v, listener.value(v)) &&
        redraws == old(redraws) + 1 + Changes(v, listener.value(v))
    {
      if checked == v {
        return;
      }
      checked := v;
      btnCurX := RestX(v, btnLeftX, btnRightX);
      btnTopLeftX := TopLeft(btnWidth, btnCurX);
      redraws := redraws + 1;
      if broadcasting {
        return;
      }
      broadcasting := true;
      NotifyListener();
      broadcasting := false;
    }

    /**
     * The listener is called, if there is one, with the current value and
     * makes its `setChecked` calls in reply; being inside the notification,
     * none of them notifies again.
     */
    method NotifyListener()
      requires Valid() && broadcasting
      modifies this`checked, this`btnCurX, this`btnTopLeftX, this`broadcasting, this`notifications, this`redraws
      decreases 1
      ensures Valid() && broadcasting
      ensures listener.None? ==>
        checked == old(checked) && btnCurX == old(btnCurX) &&
        redraws == old(redraws) && notifications == old(notifications)
      ensures listener.Some? ==>
        notifications == old(notifications) + [old(checked)] &&
        checked == Final(old(checked), listener.value(old(checked))) &&
        redraws == old(redraws) + Changes(old(checked), listener.value(old(checked)))
      ensures old(btnCurX) == RestX(old(checked), btnLeftX, btnRightX) ==> btnCurX == RestX(checked, btnLeftX, btnRightX)
    {
      if listener.Some? {
        ghost var v := checked;
        notifications := notifications + [checked];
        var replies := listener.value(checked);
        var i := 0;
        while i < |replies|
          invariant 0 <= i <= |replies|
          invariant Valid() && broadcasting
          invariant checked == Final(v, replies[..i])
          invariant old(btnCurX) == RestX(v, btnLeftX, btnRightX) ==> btnCurX == RestX(checked, btnLeftX, btnRightX)
          invariant redraws == old(redraws) + Changes(v, replies[..i])
          invariant notifications == old(notifications) + [v]
        {
          ChangesSnoc(v, replies[..i], replies[i]);
          assert replies[..i + 1] == replies[..i] + [replies[i]];
          SetChecked(replies[i]);
          i := i + 1;
        }
        assert replies[..i] == replies;
      }
    }

    /** `toggle`: set the opposite of the current state. */
    method Toggle()
      requires Valid()
      modifies this`checked, this`btnCurX, this`btnTopLeftX, this`broadcasting, this`notifications, this`redraws
      ensures Valid()
      ensures broadcasting == old(broadcasting)
      ensures redraws > old(redraws)
      ensures (old(broadcasting) || listener.None?) ==>
        checked == !old(checked) && notifications == old(notifications)
      ensures !old(broadcasting) && listener.Some? ==>
        notifications == old(notifications) + [!old(checked)] &&
        checked == Final(!old(checked), listener.value(!old(checked)))
      ensures btnCurX == RestX(checked, btnLeftX, btnRightX)
    {
      SetChecked(!checked);
    }

    /** `setCheckedDelayed`: queue a commit of `c` for later. */
    method SetCheckedDelayed(c: bool)
      modifies this`pendingCommits
      ensures pendingCommits == old(pendingCommits) + [c]
    {
      pendingCommits := pendingCommits + [c];
    }

    /** The handler runs the oldest queued commit. */
    method RunPendingCommit()
      requires Valid() && pendingCommits != []
      modifies this`checked, this`btnCurX, this`btnTopLeftX, this`broadcasting, this`notifications, this`redraws,
        this`pendingCommits
      ensures Valid()
      ensures pendingCommits == old(pendingCommits)[1..]
      ensures broadcasting == old(broadcasting)
      ensures old(checked) == old(pendingCommits)[0] ==>
        checked == old(checked) && btnCurX == old(btnCurX) && btnTopLeftX == old(btnTopLeftX) &&
        redraws == old(redraws)
      ensures old(checked) != old(pendingCommits)[0] ==> btnCurX == RestX(checked, btnLeftX, btnRightX)
      ensures (old(broadcasting) || listener.None?) ==> checked == old(pendingCommits)[0]
      ensures old(checked) != old(pendingCommits)[0] && (old(broadcasting) || listener.None?) ==>
        redraws == old(redraws) + 1
      ensures var c := old(pendingCommits)[0];
        old(checked) != c && !old(broadcasting) && listener.Some? ==>
          notifications == old(notifications) + [c] && checked == Final(c, listener.value(c)) &&
          redraws == old(redraws) + 1 + Changes(c, listener.value(c))
      ensures var c := old(pendingCommits)[0];
        old(checked) == c || old(broadcasting) || listener.None? ==> notifications == old(notifications)
    {
      var c := pendingCommits[0];
      pendingCommits := pendingCommits[1..];
      SetChecked(c);
    }

    /**
     * `BtnAnimation.start`: launch the animator from the knob's position
     * toward on or off, replacing any pending tick by exactly one, due one
     * frame from now.
     */
    method StartAnimation(turnOn: bool, now: int)
      requires Valid()
      modifies this`animating, this`position, this`velocity, this`lastTime, this`deadline, this`pendingTicks
      ensures Valid()
      ensures AnimationState() == Animation.Start(old(AnimationState()), btnCurX, turnOn, now)
      ensures pendingTicks == [now + FrameDuration]
    {
      lastTime := now;
      velocity := if turnOn then -InitVelocity else InitVelocity;
      position := btnCurX;
      deadline := now + FrameDuration;
      animating := true;
      pendingTicks := [];
      pendingTicks := pendingTicks + [deadline];
    }

    /** `performClick`: animate toward the opposite of the current state. */
    method PerformClick(now: int) returns (r: bool)
      requires Valid()
      modifies this`animating, this`position, this`velocity, this`lastTime, this`deadline, this`pendingTicks
      ensures Valid()
      ensures r
      ensures AnimationState() == Animation.Start(old(AnimationState()), btnCurX, !checked, now)
    {
      StartAnimation(!checked, now);
      r := true;
    }

    /** The handler runs a queued click task. */
    method RunPendingClick(now: int)
      requires Valid() && pendingClicks > 0
      modifies this`animating, this`position, this`velocity, this`lastTime, this`deadline, this`pendingTicks,
        this`pendingClicks
      ensures Valid()
      ensures pendingClicks == old(pendingClicks) - 1
      ensures AnimationState() == Animation.Start(old(AnimationState()), btnCurX, !checked, now)
    {
      pendingClicks := pendingClicks - 1;
      var _ := PerformClick(now);
    }

    /**
     * `onTouchEvent`. A press records where it happened and the knob's rest
     * position for the current state. A move drags the knob and updates the
     * direction it is heading. A release ends a tap, which queues a click
     * (or, when the handler refuses it, clicks at once), or a drag, which
     * animates the way the drag was heading. Every event redraws, and the
     * event counts as handled exactly when the widget is enabled.
     */
    method OnTouchEvent(action: Action, x: real, y: real, eventTime: int, downTime: int, now: int, posted: bool)
      returns (handled: bool)
      requires Valid()
      modifies this`downX, this`downY, this`btnStartX, this`pressed, this`btnCurX, this`btnTopLeftX, this`turningOff,
        this`redraws, this`pendingClicks,
        this`animating, this`position, this`velocity, this`lastTime, this`deadline, this`pendingTicks
      ensures Valid()
      ensures handled == enabled
      ensures redraws == old(redraws) + 1
      ensures action != Up ==> AnimationState() == old(AnimationState()) && pendingClicks == old(pendingClicks)
      ensures action == Down ==>
        downX == x && downY == y && pressed && btnStartX == RestX(checked, btnLeftX, btnRightX) &&
        btnCurX == old(btnCurX) && turningOff == old(turningOff)
      ensures action == Move ==>
        PressState() == old(PressState()) &&
        btnCurX == MoveX(btnStartX, x, downX, btnLeftX, btnRightX) &&
        turningOff == TurningOff(btnCurX, btnLeftX, btnRightX)
      ensures action == Up ==>
        downX == old(downX) && downY == old(downY) && btnStartX == old(btnStartX) && !pressed &&
        btnCurX == old(btnCurX) && turningOff == old(turningOff) &&
        var tap := IsTap(x, y, downX, downY, eventTime - downTime, touchSlop, clickTimeout);
        (tap && posted ==>
          pendingClicks == old(pendingClicks) + 1 && AnimationState() == old(AnimationState())) &&
        (!(tap && posted) ==>
          pendingClicks == old(pendingClicks) &&
          AnimationState() == Animation.Start(old(AnimationState()), btnCurX,
                                              ReleaseTarget(tap, checked, turningOff), now))
      ensures action == OtherAction ==>
        PressState() == old(PressState()) && btnCurX == old(btnCurX) && turningOff == old(turningOff)
    {
      match action {
        case Down => TouchDown(x, y);
        case Move => TouchMove(x);
        case Up => TouchUp(x, y, eventTime, downTime, now, posted);
        case OtherAction =>
      }
      redraws := redraws + 1;
      handled := enabled;
    }

    /** ACTION_DOWN. */
    method TouchDown(x: real, y: real)
      requires Valid()
      modifies this`downX, this`downY, this`btnStartX, this`pressed
      ensures Valid()
      ensures downX == x && downY == y && pressed && btnStartX == RestX(checked, btnLeftX, btnRightX)
    {
      downX := x;
      downY := y;
      pressed := true;
      btnStartX := RestX(checked, btnLeftX, btnRightX);
    }

    /** ACTION_MOVE: the two-step clamp and the midpoint test. */
    method TouchMove(x: real)
      requires Valid()
      modifies this`btnCurX, this`btnTopLeftX, this`turningOff
      ensures Valid()
      ensures btnCurX == MoveX(btnStartX, x, downX, btnLeftX, btnRightX)
      ensures turningOff == TurningOff(btnCurX, btnLeftX, btnRightX)
    {
      btnCurX := btnStartX + x - downX;
      if btnCurX >= btnRightX {
        btnCurX := btnRightX;
      }
      if btnCurX <= btnLeftX {
        btnCurX := btnLeftX;
      }
      turningOff := btnCurX > (btnRightX - btnLeftX) / 2.0 + btnLeftX;
      btnTopLeftX := TopLeft(btnWidth, btnCurX);
    }

    /** ACTION_UP: tell a tap from a drag and act on it. */
    method TouchUp(x: real, y: real, eventTime: int, downTime: int, now: int, posted: bool)
      requires Valid()
      modifies this`pressed, this`pendingClicks,
        this`animating, this`position, this`velocity, this`lastTime, this`deadline, this`pendingTicks
      ensures Valid()
      ensures !pressed
      ensures var tap := IsTap(x, y, downX, downY, eventTime - downTime, touchSlop, clickTimeout);
        (tap && posted ==>
          pendingClicks == old(pendingClicks) + 1 && AnimationState() == old(AnimationState())) &&
        (!(tap && posted) ==>
          pendingClicks == old(pendingClicks) &&
          AnimationState() == Animation.Start(old(AnimationState()), btnCurX,
                                              ReleaseTarget(tap, checked, turningOff), now))
    {
      pressed := false;
      var tap := Abs(y - downY) < touchSlop as real && Abs(x - downX) < touchSlop as real &&
                 eventTime - downTime < clickTimeout;
      if tap {
        if posted {
          pendingClicks := pendingClicks + 1;
        } else {
          var _ := PerformClick(now);
        }
      } else {
        StartAnimation(!turningOff, now);
      }
    }

    /** `increment`: advance the animation to `now`. */
    method Increment(now: int)
      modifies this`position, this`velocity, this`lastTime
      ensures AnimationState() == Animation.Increment(old(AnimationState()), now)
    {
      var t := Seconds(lastTime, now);
      var p := position;
      var v := velocity;
      var a := acceleration;
      position := p + v * t + 0.5 * a * t * t;
      velocity := v + a * t;
      lastTime := now;
    }

    /** `invalidateView`: move the knob to `p` and redraw. */
    method InvalidateView(p: real)
      requires Consistent()
      modifies this`btnCurX, this`btnTopLeftX, this`redraws
      ensures Consistent()
      ensures btnCurX == p && redraws == old(redraws) + 1
    {
      btnCurX := p;
      btnTopLeftX := TopLeft(btnWidth, btnCurX);
      redraws := redraws + 1;
    }

    /**
     * `doAnimation`, run once the pending tick has been taken off the queue:
     * one tick of the animator, as `Tick` states it, with the knob moved to
     * the animated position; a stopped animator does nothing.
     */
    method DoAnimation(now: int)
      requires Consistent() && KnobInRange() && pendingTicks == []
      modifies this`animating, this`position, this`velocity, this`lastTime, this`deadline, this`pendingTicks,
        this`pendingCommits, this`btnCurX, this`btnTopLeftX, this`redraws
      ensures Valid()
      ensures var step := Tick(old(AnimationState()), btnLeftX, btnRightX, now);
        AnimationState() == step.session &&
        pendingTicks == (if step.next.Some? then [step.next.value] else []) &&
        pendingCommits == old(pendingCommits) + (if step.commit.Some? then [step.commit.value] else [])
      ensures old(animating) ==> btnCurX == position && redraws == old(redraws) + 1
      ensures !old(animating) ==> btnCurX == old(btnCurX) && redraws == old(redraws)
    {
      if animating {
        Increment(now);
        if position <= btnLeftX {
          animating := false;
          position := btnLeftX;
          SetCheckedDelayed(true);
        } else if position >= btnRightX {
          animating := false;
          position := btnRightX;
          SetCheckedDelayed(false);
        } else {
          deadline := deadline + FrameDuration;
          pendingTicks := pendingTicks + [deadline];
        }
        InvalidateView(position);
      }
    }

    /**
     * The handler delivers the pending tick, at or after its due time: the
     * animator advances one tick, and either schedules the next or stops
     * and queues the commit of the state it reached.
     */
    method HandleTick(now: int)
      requires Valid() && pendingTicks != [] && now >= pendingTicks[0]
      modifies this`animating, this`position, this`velocity, this`lastTime, this`deadline, this`pendingTicks,
        this`pendingCommits, this`btnCurX, this`btnTopLeftX, this`redraws
      ensures Valid()
      ensures var step := Tick(old(AnimationState()), btnLeftX, btnRightX, now);
        AnimationState() == step.session &&
        pendingCommits == old(pendingCommits) + (if step.commit.Some? then [step.commit.value] else [])
      ensures btnCurX == position && redraws == old(redraws) + 1
    {
      pendingTicks := pendingTicks[1..];
      DoAnimation(now);
    }

    /** `onMeasure`: the size the widget asks for. */
    method OnMeasure() returns (width: int, height: int)
      requires Valid()
      ensures (width, height) == MeasuredSize(maskWidth.Floor, maskHeight.Floor)
    {
      width := maskWidth.Floor;
      height := (maskHeight + 2.0 * ExpandY as real).Floor;
    }
  }
}
