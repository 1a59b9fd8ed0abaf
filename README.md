# SwitchButton, modelled in Dafny

A model of `me.imid.view.SwitchButton`, an Android toggle switch: a knob
that slides over a track, is dragged or tapped, and then settles on one of
two rest positions with a short animation before the checked state is
committed. The model covers the widget's state machine under its drawing
code:

- the checked-state setter with its idempotence check and its
  re-entrancy guard against a listener that calls `setChecked` again
  (`notify.dfy`, `SwitchButton.SetChecked`);
- the gesture interpreter for press, move and release: the two-step clamp
  of a dragged knob, the strict-midpoint "turning off" test and the strict
  tap test against touch slop and click timeout (`gesture.dfy`,
  `SwitchButton.OnTouchEvent`);
- the settle animator `BtnAnimation`: `start`, `increment`, `doAnimation`,
  with its fixed-cadence tick schedule and the delayed commit it queues when
  the knob reaches a rest position (`animation.dfy`,
  `SwitchButton.StartAnimation`, `SwitchButton.HandleTick`);
- the small helpers: the knob's drawn left edge, the rest positions
  `initView` derives from the bitmap widths, the enabled alpha and the
  measured size (`geometry.dfy`).

`btnLeftX` is where the knob rests while the switch is on and `btnRightX`
where it rests while off. `initView` computes `btnRightX = btnWidth/2` and
`btnLeftX = maskWidth - btnWidth/2`, so the "left" position is numerically
the larger one whenever the mask is wider than the knob. The pure
functions take both positions as free parameters and every property that
needs `left <= right` says so in its `requires`. With the positions out of
order, a move always puts the knob on `btnLeftX` (`Gesture.MoveX`) and
every animation stops on its first tick (`Animation.SwappedBoundsStopAtOnce`),
so a drag released straight after a move, with the knob still where the move
put it, ends in a commit of off (`Release.SwappedDragCommitsOff`). A
`setChecked` run between the move and the release puts the knob back on its
rest position but keeps the move's `isTurningOff`, so that release can commit
on instead.

Layout: `options.dfy` (an `Option` type), `geometry.dfy`, `gesture.dfy`,
`animation.dfy`, `release.dfy` and `notify.dfy` hold pure functions and lemmas;
`switch_button.dfy` holds the class `SwitchButton`. Its methods change the
fields as the Java methods do, and each one is proved against the pure
functions. The handler's queue is explicit state:

- `pendingTicks` holds the due time of the pending animation tick. The
  invariant `Valid()` keeps it equal to `[deadline]` while animating and
  empty otherwise; it also keeps the knob between ordered rest positions.
- `pendingCommits` holds the delayed `setChecked` commits, oldest first.
- `pendingClicks` counts the posted click tasks.

`HandleTick`, `RunPendingCommit` and `RunPendingClick` model the handler
delivering one of these. The clock is a parameter `now`, in milliseconds.
The listener is a function from the new checked value to the `setChecked`
calls it makes in reply. Two ghost fields record what cannot be observed
otherwise: `notifications` logs every value the listener was called with,
and `redraws` counts `invalidate()` requests.

Main results:

- `Animation.SettlesOnTarget`: a started animation never commits the wrong
  state, provided the knob starts between ordered rest positions and the
  ticks arrive no earlier than their due times. After
  `TicksToCover(right - left)` ticks it has stopped on the rest position it
  headed for and has queued exactly one commit, of that state.
- `Animation.InFlightOnLine`: because the acceleration is zero, the knob's
  position depends only on the time of the latest tick, however late the
  ticks came.
- `Release.ReleaseSettles`: a release after a move, tap or drag, between
  ordered rest positions ends in exactly one commit, of the state the
  gesture asked for, within a bounded number of ticks.
- `SwitchButton.Valid()`: with ordered rest positions the knob, and a
  running animation, stay between them, and at most one animation tick is
  ever pending.
- `SwitchButton.SetChecked`: the listener is called at most once per
  outermost call, with the new value. Nested calls change the state and
  redraw, but notify nobody. The guard is down again on return. Setting the
  current value changes nothing.

## Model

| member | source | states |
|---|---|---|
| Geometry.TopLeft | src/me/imid/view/SwitchButton.java:252-254 | the knob bitmap drawn from the returned edge is centred on the knob position: it covers the position with equal parts on either side |
| Geometry.RestingKnobInsideMask | src/me/imid/view/SwitchButton.java:148-150 | a knob no wider than the mask, resting at the position for its checked state (`mChecked ? btnLeftX : btnRightX`), is drawn wholly inside the mask |
| Geometry.OffX | src/me/imid/view/SwitchButton.java:95 | the off rest position puts the knob bitmap's left edge (`getBtnTopLeftX`) at 0 |
| Geometry.OnX | src/me/imid/view/SwitchButton.java:96 | the on rest position puts the knob bitmap's right edge on the mask's right edge; it lies right of the off position exactly when the mask is wider than the knob |
| Geometry.Alpha | src/me/imid/view/SwitchButton.java:103-106 | the alpha is 255 exactly when enabled; a disabled switch is drawn at half of 256 |
| Geometry.MeasuredSize | src/me/imid/view/SwitchButton.java:282-285 | the measured width is the mask's; the height leaves `expandY` (15) free above and below the mask |
| Gesture.MoveX | src/me/imid/view/SwitchButton.java:196-202 | the dragged knob never ends left of `btnLeftX`; with ordered rest positions it stays between them, follows the finger inside them and sticks to the nearer end outside; with swapped ones it always lands on `btnLeftX` |
| Gesture.TurningOff | src/me/imid/view/SwitchButton.java:203 | "turning off" holds exactly when the knob is strictly nearer the off position than the on one |
| Gesture.IsTap | src/me/imid/view/SwitchButton.java:209-211 | a release is a tap exactly when both coordinates stay strictly within the slop of the press point and the press lasted strictly less than the click timeout |
| Gesture.DragHeadsToNearerSide | src/me/imid/view/SwitchButton.java:195-219 | after a move between ordered rest positions, a drag release heads for the nearer rest position, whatever the starting state |
| Gesture.DragExample | src/me/imid/view/SwitchButton.java:195-219 | rest positions 10 and 90, drag from 90 to 40: the knob is at 40, not turning off, and the release heads on |
| Animation.FrameDurationValue | src/me/imid/view/SwitchButton.java:293-294 | one frame is 16 ms (1000/60 in integer division), one stride at 400 px/s is 6.4 px |
| Animation.Increment | src/me/imid/view/SwitchButton.java:313-322 | with acceleration 0 the velocity is unchanged and the position moves by velocity times elapsed seconds; the last tick time becomes now |
| Animation.Start | src/me/imid/view/SwitchButton.java:324-330 | the session is animating from the knob's position, due one frame from now, at full speed; the velocity is negative exactly when heading on |
| Animation.Tick | src/me/imid/view/SwitchButton.java:337-356 | a stopped session is untouched; a running one is advanced by `Increment` and stops at `btnLeftX` committing true when the advanced position is at or left of it, else at `btnRightX` committing false when it is at or right of that, else stays in flight at the advanced position; it stops exactly when it queues a commit (true at `btnLeftX`, false at `btnRightX`); a session still in flight lies strictly between the rest positions and its next tick is one frame after the previous deadline |
| Animation.StoppedStaysStopped | src/me/imid/view/SwitchButton.java:338 | ticks delivered to a stopped animator change nothing and queue nothing |
| Animation.CommitsOnce | src/me/imid/view/SwitchButton.java:340-352 | any run of ticks either leaves the animation in flight with nothing committed, or stopped on a rest position with exactly one commit matching that position |
| Animation.TickOnLine | src/me/imid/view/SwitchButton.java:313-322 | one increment keeps a launched session on the straight line through its launch point |
| Animation.InFlightOnLine | src/me/imid/view/SwitchButton.java:313-352 | while in flight, a launched session keeps its velocity, lies strictly between the rest positions, and its position depends only on the latest tick time |
| Animation.KeepsItsSide | src/me/imid/view/SwitchButton.java:337-356 | a launched session whose ticks all come after its launch time never stops on the wrong side: heading on from a launch point no further right than `btnRightX` it commits only true, heading off from a launch point no further left than `btnLeftX` only false |
| Animation.InFlightTravelled | src/me/imid/view/SwitchButton.java:329-352 | with ticks on schedule, a session still in flight after n ticks has moved at least n strides in its direction |
| Animation.GlideStops | src/me/imid/view/SwitchButton.java:337-356 | with ticks on schedule, a launched animation stops within the number of ticks whose strides cover the distance to its target |
| Animation.SettlesOnTarget | src/me/imid/view/SwitchButton.java:324-356 | from a knob between ordered rest positions, the animation commits only the state it headed for, and after `TicksToCover(right - left)` on-schedule ticks it has stopped there with exactly that one commit |
| Animation.SwappedBoundsStopAtOnce | src/me/imid/view/SwitchButton.java:340-347 | with `btnRightX < btnLeftX` every running animation stops on its first tick, committing true exactly when the advanced position is at or left of `btnLeftX` and false otherwise |
| Release.ReleaseSettles | src/me/imid/view/SwitchButton.java:207-221 | a release after a move between ordered rest positions launches toward `ReleaseTarget` (the opposite state for a tap, the nearer rest position for a drag); the animation commits nothing but that state, and after `TicksToCover(right - left)` on-schedule ticks it has stopped there with exactly that commit |
| Release.SwappedDragCommitsOff | src/me/imid/view/SwitchButton.java:196-219 | with `btnRightX < btnLeftX`, a drag released after a move commits false on the animation's first tick, whichever way the finger went |
| Notify.Changes | src/me/imid/view/SwitchButton.java:144-151 | nested `setChecked` calls redraw at most once each, and not at all exactly when each asks for the state already held |
| Notify.ChangesSnoc | src/me/imid/view/SwitchButton.java:144-151 | one more nested call redraws exactly when it differs from the state reached so far |
| Switch.SwitchButton.constructor | src/me/imid/view/SwitchButton.java:70-100 | the rest positions and click timeout are derived as `initView` derives them; the switch starts unchecked with the knob at the off position, enabled, not animating, nothing queued |
| Switch.SwitchButton.SetEnabled | src/me/imid/view/SwitchButton.java:103-106 | stores the enabled state and its alpha |
| Switch.SwitchButton.IsChecked | src/me/imid/view/SwitchButton.java:109-111 | returns the checked state |
| Switch.SwitchButton.SetOnCheckedChangeListener | src/me/imid/view/SwitchButton.java:174-176 | replaces the single listener |
| Switch.SwitchButton.SetChecked | src/me/imid/view/SwitchButton.java:142-164 | the current value changes nothing, redraws nothing, notifies nobody; a new value is stored with the knob at its rest position; outside a notification the listener is called once with the new value and its nested calls notify nobody; the guard has its old value on return |
| Switch.SwitchButton.NotifyListener | src/me/imid/view/SwitchButton.java:158-162 | the listener is logged once with the current value; its replies leave the last value requested, with one redraw per actual change |
| Switch.SwitchButton.Toggle | src/me/imid/view/SwitchButton.java:114-116 | always redraws; without a listener reply the state is flipped |
| Switch.SwitchButton.SetCheckedDelayed | src/me/imid/view/SwitchButton.java:123-131 | queues the commit behind those already queued |
| Switch.SwitchButton.RunPendingCommit | src/me/imid/view/SwitchButton.java:124-130 | runs the oldest queued commit `c` through `setChecked` and removes it: a commit of the value held leaves the state, the knob and its drawn edge as they were, redraws nothing and notifies nobody; a new `c` puts the knob at its rest position; without a listener, or inside a notification, it stores `c` with one redraw; otherwise it notifies the listener once with `c`, leaves the last value its replies ask for, and redraws once plus once per reply that changes the state |
| Switch.SwitchButton.StartAnimation | src/me/imid/view/SwitchButton.java:324-335 | the animator takes the state `Animation.Start` gives; the pending tick is replaced by exactly one, due one frame from now |
| Switch.SwitchButton.PerformClick | src/me/imid/view/SwitchButton.java:236-239 | starts the animation toward the opposite of the current state and returns true |
| Switch.SwitchButton.RunPendingClick | src/me/imid/view/SwitchButton.java:229-233 | a queued click task runs `performClick` |
| Switch.SwitchButton.OnTouchEvent | src/me/imid/view/SwitchButton.java:179-227 | press records the press point and the rest position and leaves "turning off" alone; move drags by `MoveX` and sets `TurningOff`; release queues a click for a tap (or clicks at once if not posted) and starts the animation toward `ReleaseTarget`; every event redraws and returns the enabled state |
| Switch.SwitchButton.TouchDown | src/me/imid/view/SwitchButton.java:187-194 | records the press point and the rest position for the current state, and shows the pressed knob |
| Switch.SwitchButton.TouchMove | src/me/imid/view/SwitchButton.java:195-206 | the knob takes `MoveX` and "turning off" takes `TurningOff` of it |
| Switch.SwitchButton.TouchUp | src/me/imid/view/SwitchButton.java:207-222 | a posted tap queues one click; an unposted tap starts toward the opposite state; a drag starts toward `!turningOff` |
| Switch.SwitchButton.Increment | src/me/imid/view/SwitchButton.java:313-322 | the animator takes the state `Animation.Increment` gives |
| Switch.SwitchButton.InvalidateView | src/me/imid/view/SwitchButton.java:358-362 | moves the knob to the given position, keeps its drawn edge in step, redraws |
| Switch.SwitchButton.DoAnimation | src/me/imid/view/SwitchButton.java:337-356 | the animator, the next tick and the commit queue follow `Animation.Tick`; a running animator moves the knob to its position and redraws, a stopped one does nothing |
| Switch.SwitchButton.HandleTick | src/me/imid/view/SwitchButton.java:297-305 | delivering the pending tick at or after its due time advances the animator by `Animation.Tick` and keeps at most one tick pending |
| Switch.SwitchButton.OnMeasure | src/me/imid/view/SwitchButton.java:282-285 | reports `MeasuredSize` of the mask |

## Left out

- Drawing (`onDraw`, the bitmaps, the `PorterDuffXfermode` blend, `saveLayerAlpha`): pixel compositing, with nothing to state beyond it. The knob's drawn left edge is kept (`btnTopLeftX`).
- Resource loading and `ViewConfiguration` lookups in `initView`: the bitmap widths, the touch slop, the pressed-state duration and the tap timeout are constructor parameters.
- `attemptClaimDrag`: asking the parent view not to intercept touches is view-hierarchy plumbing.
- The Android `Handler`, `SystemClock`, `post` and `postDelayed`: the clock is a parameter, and queued messages are fields that the handler methods consume. The two clocks the animator reads (`uptimeMillis` in `start`, `elapsedRealtime` in `increment`) are one `now` here. In the source the first `increment` measures `elapsedRealtime` against a start time taken from `uptimeMillis`, so its elapsed time also counts any deep sleep since boot and can carry the knob straight to a rest position on the first tick; the glide results (`InFlightOnLine`, `InFlightTravelled`, `GlideStops`, `SettlesOnTarget`, `Release.ReleaseSettles`) hold for the one-clock model only.
- The 10 ms delay of `setCheckedDelayed`: only the deferral is modelled. Commits run in queue order, at whatever moment the handler chooses.
- A failing `post` of the click task: this is the parameter `posted`. When it is false the click runs at once.
- Java `float` arithmetic: positions, velocities and times in seconds are exact reals, so rounding in `increment` and in the midpoint test is not modelled. The `(int)` casts in `onMeasure` apply to whole-number sizes, which is what the bitmaps give.
- The listener's body: it is abstract, seen only through the `setChecked` calls it makes in reply to a notification. Other calls a listener could make back into the widget (a click, a touch event) are not modelled. Nor are exceptions: the source sets `isBroadcasting` around the listener call without a `finally`, so a listener that throws leaves it set and no later change notifies anyone; the model's listener cannot throw, so the guard is always restored.
- The `CheckBox` superclass: only its enabled flag is modelled, because `onTouchEvent` returns it.
- The code is modelled where it departs from the switch's intended design. A press does not cancel a running animation or its pending tick. A move clamps in two steps rather than into an interval. The animation's acceleration is always zero.
