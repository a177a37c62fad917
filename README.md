# Wabi-Sabi heart: the particle animation state machine

The program draws a ring of particles that sweep inward along radial paths
until they outline a heart. The heart is held for a few frames while a
second set of particles bursts outward. Then the sweep resumes, and the
cycle repeats for ever. This project models the state behind that animation,
with all drawing removed:

- `mapRange`, the linear remap helper (module `Utils`);
- `getParticles`, which builds a particle collection (module `Particles`);
- one frame of `update` together with the state-changing statements of
  `draw`. Module `Animation` gives this as a function on a `State` value and
  proves its properties. Class `HeartApp.App` gives it in the source's own
  form: two arrays of particles whose progress is rewritten in place, a pause
  flag and a counter, and the rolling frame-rate history. Each per-frame
  method (`Update`, `Draw`, `ResetExplosion`) is proved equal to its
  function in `Animation`; setting up the collections is specified by
  `Particles.Generated`.

Conventions:

- Progress values and steps are exact reals. The ring step is 0.005 and the
  explosion step is 0.04.
- An angle is stored divided by π. A particle at angle kπ/count carries the
  real k/count, so a whole turn is 2.0 and the initial-progress formula is
  exact.
- The explosion particles are called the "explosion" in the value model.
- The frame-rate value itself is a float computation on timestamps. Here it
  is an input: `Update(hasTimestamp, fps)`. `hasTimestamp` is whether `t` is
  truthy.
- `fpsHistory.length = 5` pads a shorter array with unset slots. These slots
  are `None` in a `seq<Option<int>>`, so after every update the history has
  exactly five slots.

What is proved:

- every ring progress stays in [0, 1] and every explosion progress in
  [0, 1.04);
- the counter is positive while the machine is paused;
- the exact comparison `progress === 1` on the last ring particle fires
  exactly when that particle has just wrapped;
- the trigger pauses the machine, sets the counter to 10 and leaves every
  explosion particle at 0.04 by the end of the same tick;
- the ring is frozen for the 9 ticks that follow, and the 10th tick resumes it;
- after the heart closes, ticks 1 to 9 hold it, ticks 10 to 209 run the
  sweep without closing it, and tick 210 closes it again;
- an explosion particle reaches exactly 1 after 25 ticks and stays there;
- the history holds the five newest samples, newest first.

## Model

| member | source | states |
|---|---|---|
| Utils.MapRange | script.js:8-24 | a degenerate input range (narrower than Number.EPSILON) yields outputMin; with clamp the result lies between the smaller and the larger end of the output range |
| Utils.MapRangeIsLinear | script.js:12 | unclamped, the result divides the output range in the same ratio as value divides the input range |
| Utils.MapRangeEndpoints | script.js:12-20 | inputMin maps to outputMin and inputMax to outputMax, with or without clamping |
| Utils.MapRangeClamp | script.js:13-20 | clamping leaves an in-range result unchanged and otherwise gives the end of the output range that was overshot, for either direction of that range |
| Utils.MapRangeMidpoint | script.js:9-12 | mapRange(5, 0, 10, 0, 100) is 50, and any value over the empty range [5, 5] maps to 0 |
| Particles.InitialProgress | script.js:79-84 | the override, when given, is the progress; otherwise the progress of an angle in (0, 2π] lies in [0, 1] |
| Particles.InitialProgressSymmetric | script.js:81 | the default stagger is symmetric about the angle π |
| Particles.GetParticles | script.js:74-93 | exactly 2·count particles, the k-th at angle kπ/count with its initial progress; angles strictly increasing within (0, 2π], the last at 2π; without override every progress is in [0, 1] |
| Particles.AnglesIncreasing | script.js:76-78 | angles kπ/count for k = 1..2·count rise strictly, lie in (0, 2π] and end at 2π |
| Animation.RingProgress | script.js:140-148 | a ring step keeps progress in [0, 1]; it is frozen while paused; otherwise it drops by 0.005, and the result is exactly 1 if and only if the particle stood below 0.005 and wrapped |
| Animation.ExplosionProgress | script.js:169-179 | an explosion step keeps progress in [0, 1.04); it never decreases; it adds exactly 0.04 to a particle below 1 and leaves one at 1 or beyond unchanged |
| Animation.RecordFps | script.js:205-206 | after unshift and length = 5 the history has exactly five slots, the new sample first, each older entry one slot later and unset slots beyond the old length |
| Animation.Gate | script.js:188-194 | while running the state is unchanged; while paused the counter drops by exactly one and the machine stays paused exactly while the counter is positive; particles and history are untouched; the invariant is kept |
| Animation.Draw | script.js:124-180 | keeps the invariant, the sizes of both collections and the history; a paused machine stays paused with its counter and ring unchanged; a running machine that becomes paused has counter 10 and every explosion particle at 0.04 |
| Animation.Update | script.js:184-206 | keeps the sizes of both collections, always records the sample as unshift and length = 5 do, and with a timestamp and more than one tick on the counter stays paused with the counter one lower |
| Animation.UpdatePreservesInv | script.js:140-180 | every update keeps ring progress in [0, 1], explosion progress in [0, 1.04), the counter non-negative and positive while paused, and the history at most five long |
| Animation.UpdateKeepsAngles | script.js:130-180 | no update changes a particle's angle or the size of either collection |
| Animation.NoTimestampOnlyRecords | script.js:187-206 | an update without a timestamp leaves paused, pauseCounter and all progress values unchanged and only records the sample |
| Animation.PauseCountdown | script.js:187-194 | while paused, a timestamped tick lowers the counter by exactly one and the pause ends once it is at most 0; while running the counter is untouched unless the trigger sets it to 10 |
| Animation.FiresIffLastWrapped | script.js:146-150 | the trigger fires if and only if the machine runs and the last ring particle stood below one step, i.e. it has just wrapped to 1 |
| Animation.DrawWhenFiring | script.js:150-157 | when the trigger fires, the tick ends paused with counter 10, every ring particle stepped, and every explosion particle reset to 0 and advanced once to 0.04 |
| Animation.DrawWhenNotFiring | script.js:168-180 | without the trigger, pause flag and counter are unchanged and the explosion only advances |
| Animation.HeldWhilePaused | script.js:140-144 | with more than one tick left on the counter, a tick keeps the machine paused, the counter one lower, the ring unchanged and the explosion advancing |
| Animation.ResumeTick | script.js:188-197 | on the tick the counter runs out the gate opens before the ring step, so the ring moves on that tick, and a last particle at 1 moves to 0.995 without firing again |
| Animation.PauseHolds | script.js:187-198 | from a pause with c on the counter, the next c-1 ticks keep it paused, the ring frozen, the counter falling by one per tick and each explosion particle advancing once per tick |
| Animation.PauseEnds | script.js:191-193 | the c-th tick ends the pause when the last ring particle is not about to wrap |
| Animation.ResumeRuns | script.js:188-197 | the tick that empties the counter leaves the machine running when the last ring particle is not about to wrap |
| Animation.SweepStep | script.js:140-157 | a running tick brings a last ring particle that is not at the centre one step closer, keeps the counter and the invariant, and does not fire the trigger |
| Animation.RunDown | script.js:140-157 | while running, a last particle n steps from the centre stands n-k steps out after any k of the next n ticks, with the machine running after each of them: no trigger on the way |
| Animation.CloseTick | script.js:146-156 | a running tick with the last particle at 0 wraps it to exactly 1 and pauses with counter 10 |
| Animation.HoldThenResume | script.js:184-198 | after the heart closes, 10 ticks end running with the counter at 0 and the last particle at 0.995 |
| Animation.HoldThenRunDown | script.js:140-198 | after the heart closes, every tick k from 10 to 209 ends running with the counter at 0 and the last ring particle 209-k steps from the centre |
| Animation.CycleLength | script.js:140-198 | after the heart closes, ticks 1 to 9 end paused, ticks 10 to 209 end running, and tick 210 closes it again with the counter at 10 and the last particle at 1 |
| Animation.ExplosionFromZero | script.js:168-179 | an explosion particle started at 0 stands at n·0.04 after n < 25 ticks and at exactly 1 from the 25th on |
| Animation.HistoryAfter | script.js:205-206 | after recording several samples, the history holds them newest first, followed by the older history, cut to five slots |
| Animation.HistoryHoldsLatest | script.js:205-206 | starting empty, the history holds the five most recent samples newest first, and unset slots while fewer than five were taken |
| HeartApp.App.constructor | script.js:41-50 | starts unpaused with counter 100 and both collections generated (200 steps for the ring, 20 with progress 0 for the explosion), then records the first sample as update() with no timestamp does |
| HeartApp.App.SetUpVars | script.js:70-71 | regenerates both collections into fresh arrays and keeps the pause state and history |
| HeartApp.App.Update | script.js:184-206 | one update in source order (gate, then draw, then the sample) equals Animation.Update on the old state, and the state invariant is kept |
| HeartApp.App.Draw | script.js:124-180 | the in-place loops of draw (ring step with the trigger checked inside the loop, then explosion step) equal Animation.Draw on the old state |
| HeartApp.App.ResetExplosion | script.js:156 | every explosion particle's progress becomes 0 and its angle is kept |

## Left out

- All drawing: clearing, transforms, arcs, `fillHeart` paths, the blit onto
  the visible canvas and the frame-rate text. These are output only.
- The screen positions (cos/sin of the angle) and the size jitter from the
  simplex noise function. They need trigonometry, floats and a foreign
  library, and they change no state.
- The `chroma` background colour and the Tweakpane settings panel. Both are
  foreign libraries.
- Window geometry, the resize listener and `requestAnimationFrame`
  scheduling. A resize is `App.SetUpVars`, and a frame is one call of
  `App.Update`.
- The frame-rate computation from timestamps: the division by 5000,
  `1/(t - prev) * 1000` and `Math.round`. It is float arithmetic, so the
  value is an input, and the stored timestamp is not modelled. NaN and
  Infinity readings, such as the one the constructor's own `update()`
  records, are not distinguished from other readings.
- `Utils.randomRange`. It depends on `Math.random` and nothing calls it.
- Floating point in general: progress, steps and angles are exact reals. In
  doubles the angle loop of `getParticles` accumulates rounding error and
  may stop one particle short of 2π. Repeated subtraction of 0.005 may also
  never hit exactly 0. The model assumes exact arithmetic.
- Particles.GetParticles: `count` is a natural number. With a negative count
  the source loop never ends, and no caller passes one.
- Animation.PauseEnds: this needs the last ring particle not to be about to
  wrap. Without that, the resumed ring could close again on the same tick,
  which no reachable state allows, since the particle stands at 1 after a
  trigger.
