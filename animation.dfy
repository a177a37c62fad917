/**
 * The animation state machine as values: one tick of `update` (and of the
 * state-changing statements of `draw`) as a function from state to state,
 * and what that function keeps and guarantees.
 */
module Animation {
  import opened Wrappers
  import opened Particles

  /** Progress a ring particle loses per tick. */
  const RING_STEP: real := 0.005
  /** Progress an explosion particle gains per tick. */
  const EXPLOSION_STEP: real := 0.04
  /** Ticks the heart is held once the ring closes. */
  const PAUSE_TICKS: int := 10
  /** Length of the rolling frame-rate history. */
  const FPS_SAMPLES: nat := 5
  /** Steps of the ring collection (it holds twice as many particles). */
  const RING_COUNT: nat := 200
  /** Steps of the explosion collection (it holds twice as many particles). */
  const EXPLOSION_COUNT: nat := 20
  /** Pause counter as set up before the first tick. */
  const INITIAL_PAUSE_COUNTER: int := 100

  /** Everything one tick reads and writes. */
  datatype State = State(
    paused: bool,
    pauseCounter: int,
    ring: seq<Particle>,
    explosion: seq<Particle>,
    fpsHistory: seq<Option<int>>)

  /** The bounds every reachable state keeps. */
  ghost predicate Inv(s: State)
  {
    && (forall i :: 0 <= i < |s.ring| ==> 0.0 <= s.ring[i].progress <= 1.0)
    && (forall i :: 0 <= i < |s.explosion| ==> 0.0 <= s.explosion[i].progress < 1.0 + EXPLOSION_STEP)
    && 0 <= s.pauseCounter
    && (s.paused ==> 0 < s.pauseCounter)
    && |s.fpsHistory| <= FPS_SAMPLES
  }

  // ---------------------------------------------------------------- ring

  /**
   * A ring particle's progress after its step: it moves inward unless the
   * machine is paused, and a particle that would pass the centre wraps round
   * to exactly 1.
   */
  function RingProgress(p: real, paused: bool): (r: real)
    ensures 0.0 <= p <= 1.0 ==> 0.0 <= r <= 1.0
    ensures paused && 0.0 <= p ==> r == p
    ensures !paused && p >= RING_STEP ==> r == p - RING_STEP
    ensures !paused && 0.0 <= p <= 1.0 ==> (r == 1.0 <==> p < RING_STEP)
  {
    var q := if paused then p else p - RING_STEP;
    if q < 0.0 then 1.0 else q
  }

  /** Every ring particle after its step, in order. */
  function StepRing(ring: seq<Particle>, paused: bool): seq<Particle>
  {
    seq(|ring|, i requires 0 <= i < |ring| => ring[i].(progress := RingProgress(ring[i].progress, paused)))
  }

  /** The trigger: not paused, and the last ring particle stands at exactly 1 after its step. */
  predicate Fires(paused: bool, stepped: seq<Particle>)
  {
    !paused && |stepped| > 0 && stepped[|stepped| - 1].progress == 1.0
  }

  // ----------------------------------------------------------- explosion

  /**
   * An explosion particle's progress after its step: it moves outward by a
   * fixed amount until it has reached the end of its path, then stays.
   */
  function ExplosionProgress(p: real): (r: real)
    ensures 0.0 <= p < 1.0 + EXPLOSION_STEP ==> 0.0 <= r < 1.0 + EXPLOSION_STEP
    ensures p <= r && (r == p <==> p >= 1.0)
    ensures r != p ==> r - p == EXPLOSION_STEP
  {
    if p < 1.0 then p + EXPLOSION_STEP else p
  }

  /** Every explosion particle after its step. */
  function StepExplosion(explosion: seq<Particle>): seq<Particle>
  {
    seq(|explosion|, i requires 0 <= i < |explosion| => explosion[i].(progress := ExplosionProgress(explosion[i].progress)))
  }

  /** The trigger's reset: every particle back at the centre, at its own angle. */
  function ResetProgress(explosion: seq<Particle>): seq<Particle>
  {
    seq(|explosion|, i requires 0 <= i < |explosion| => explosion[i].(progress := 0.0))
  }

  // -------------------------------------------------------------- a tick

  /** The pause countdown that `update` runs on a tick with a timestamp, before drawing. */
  function Gate(s: State): (r: State)
    ensures !s.paused ==> r == s
    ensures s.paused ==> r.pauseCounter == s.pauseCounter - 1 && (r.paused <==> r.pauseCounter > 0)
    ensures r.ring == s.ring && r.explosion == s.explosion && r.fpsHistory == s.fpsHistory
    ensures Inv(s) ==> Inv(r)
  {
    if s.paused then
      var c := s.pauseCounter - 1;
      s.(pauseCounter := c, paused := !(c <= 0))
    else
      s
  }

  /**
   * The state changes of `draw`: every ring particle steps with the pause
   * flag as it was on entry; the trigger may then pause the machine and reset
   * the explosion; finally every explosion particle steps.
   */
  function Draw(s: State): (r: State)
    ensures Inv(s) ==> Inv(r)
    ensures |r.ring| == |s.ring| && |r.explosion| == |s.explosion| && r.fpsHistory == s.fpsHistory
    ensures s.paused ==> r.paused && r.pauseCounter == s.pauseCounter
    ensures s.paused && Inv(s) ==> r.ring == s.ring
    ensures !s.paused && r.paused ==>
              r.pauseCounter == PAUSE_TICKS
              && forall i :: 0 <= i < |r.explosion| ==> r.explosion[i].progress == EXPLOSION_STEP
  {
    var ring := StepRing(s.ring, s.paused);
    var fires := Fires(s.paused, ring);
    var explosion := if fires then ResetProgress(s.explosion) else s.explosion;
    s.(ring := ring,
       explosion := StepExplosion(explosion),
       paused := s.paused || fires,
       pauseCounter := if fires then PAUSE_TICKS else s.pauseCounter)
  }

  /**
   * The frame-rate history after `unshift(fps)` and `length = 5`: the new
   * sample in front, older ones shifted back, the oldest dropped, and
   * unset slots (None) filling the array up to five.
   */
  function RecordFps(history: seq<Option<int>>, fps: int): (r: seq<Option<int>>)
    ensures |r| == FPS_SAMPLES
    ensures r[0] == Some(fps)
    ensures forall i :: 1 <= i < FPS_SAMPLES ==> r[i] == if i - 1 < |history| then history[i - 1] else None
  {
    var h := [Some(fps)] + history;
    if |h| >= FPS_SAMPLES then h[..FPS_SAMPLES] else h + Unset(FPS_SAMPLES - |h|)
  }

  function Unset(n: nat): (r: seq<Option<int>>)
    ensures |r| == n && forall i :: 0 <= i < n ==> r[i] == None
  {
    if n == 0 then [] else Unset(n - 1) + [None]
  }

  /** One call of `update`: with a timestamp, the pause gate and then `draw`; always, a new frame-rate sample. */
  function Update(s: State, hasTimestamp: bool, fps: int): (r: State)
    ensures |r.ring| == |s.ring| && |r.explosion| == |s.explosion|
    ensures r.fpsHistory == RecordFps(s.fpsHistory, fps)
    ensures hasTimestamp && s.paused && s.pauseCounter > 1 ==> r.paused && r.pauseCounter == s.pauseCounter - 1
  {
    var t := if hasTimestamp then Draw(Gate(s)) else s;
    t.(fpsHistory := RecordFps(s.fpsHistory, fps))
  }

  // -------------------------------------------------------------- lemmas

  /** Every tick keeps progress in range, the counter positive while paused, and the history short. */
  lemma UpdatePreservesInv(s: State, hasTimestamp: bool, fps: int)
    requires Inv(s)
    ensures Inv(Update(s, hasTimestamp, fps))
  {
  }

  /** Particle angles and the sizes of both collections never change. */
  lemma UpdateKeepsAngles(s: State, hasTimestamp: bool, fps: int)
    ensures var t := Update(s, hasTimestamp, fps);
            && |t.ring| == |s.ring| && |t.explosion| == |s.explosion|
            && (forall i :: 0 <= i < |s.ring| ==> t.ring[i].angle == s.ring[i].angle)
            && (forall i :: 0 <= i < |s.explosion| ==> t.explosion[i].angle == s.explosion[i].angle)
  {
  }

  /** A call without a timestamp records a sample and changes nothing else. */
  lemma NoTimestampOnlyRecords(s: State, fps: int)
    ensures var t := Update(s, false, fps);
            && t.paused == s.paused && t.pauseCounter == s.pauseCounter
            && t.ring == s.ring && t.explosion == s.explosion
            && t.fpsHistory[0] == Some(fps)
  {
  }

  /**
   * The pause gate: while paused, each timestamped tick takes exactly one off
   * the counter, and the pause ends once it is at most zero (unless, on that
   * very tick, the resumed ring closes again); while running, the counter is
   * left alone unless the trigger fires and sets it to 10.
   */
  lemma PauseCountdown(s: State, fps: int)
    ensures var t := Update(s, true, fps);
            && (s.paused && s.pauseCounter > 1 ==> t.paused && t.pauseCounter == s.pauseCounter - 1)
            && (s.paused && s.pauseCounter <= 1 && !Fires(false, StepRing(s.ring, false)) ==>
                  !t.paused && t.pauseCounter == s.pauseCounter - 1)
            && (!s.paused && !t.paused ==> t.pauseCounter == s.pauseCounter)
            && (!s.paused && t.paused ==> t.pauseCounter == PAUSE_TICKS)
  {
  }

  /**
   * The trigger fires exactly when the machine runs and the last ring
   * particle has just wrapped (it stood below one step before the tick),
   * so the exact comparison with 1 is the same as a "just wrapped" flag.
   */
  lemma FiresIffLastWrapped(s: State)
    requires Inv(s)
    ensures Fires(s.paused, StepRing(s.ring, s.paused))
            <==> !s.paused && |s.ring| > 0 && s.ring[|s.ring| - 1].progress < RING_STEP
  {
  }

  /**
   * When the trigger fires, the tick ends paused with the counter at 10,
   * every ring particle moved (the trigger comes after the last one), and
   * every explosion particle reset and then advanced once in the same tick.
   */
  lemma DrawWhenFiring(s: State)
    requires Fires(s.paused, StepRing(s.ring, s.paused))
    ensures var t := Draw(s);
            && t.paused && t.pauseCounter == PAUSE_TICKS
            && t.ring == StepRing(s.ring, false)
            && |t.explosion| == |s.explosion|
            && (forall i :: 0 <= i < |t.explosion| ==> t.explosion[i].progress == EXPLOSION_STEP)
  {
  }

  /** Without the trigger, the explosion just advances and the pause state is untouched. */
  lemma DrawWhenNotFiring(s: State)
    requires !Fires(s.paused, StepRing(s.ring, s.paused))
    ensures var t := Draw(s);
            && t.paused == s.paused && t.pauseCounter == s.pauseCounter
            && t.explosion == StepExplosion(s.explosion)
  {
  }

  /**
   * While the counter has more than one tick to go, a timestamped tick
   * leaves the ring frozen and the machine paused, and the explosion keeps
   * moving.
   */
  lemma HeldWhilePaused(s: State, fps: int)
    requires Inv(s) && s.paused && s.pauseCounter > 1
    ensures var t := Update(s, true, fps);
            && t.paused && t.pauseCounter == s.pauseCounter - 1
            && t.ring == s.ring
            && t.explosion == StepExplosion(s.explosion)
  {
  }

  /**
   * On the tick the counter runs out the gate opens before the ring step, so
   * the ring moves on that same tick; a last particle that stood at 1 moves
   * off it, so the trigger does not fire again at once.
   */
  lemma ResumeTick(s: State, fps: int)
    requires Inv(s) && s.paused && s.pauseCounter == 1
    requires |s.ring| > 0 && s.ring[|s.ring| - 1].progress == 1.0
    ensures var t := Update(s, true, fps);
            && !t.paused && t.pauseCounter == 0
            && t.ring == StepRing(s.ring, false)
            && t.ring[|t.ring| - 1].progress == 1.0 - RING_STEP
  {
  }

  // ------------------------------------------------- runs of several ticks

  /** The state after one timestamped tick per sample, in order. */
  function Run(s: State, samples: seq<int>): State
    decreases |samples|
  {
    if samples == [] then s else Run(Update(s, true, samples[0]), samples[1..])
  }

  /** An explosion particle's progress after `n` steps. */
  function AdvanceExplosion(p: real, n: nat): real
    decreases n
  {
    if n == 0 then p else AdvanceExplosion(ExplosionProgress(p), n - 1)
  }

  /**
   * From a pause with `c` ticks on the counter, the next c - 1 timestamped
   * ticks keep the heart held: the ring is frozen, the machine stays paused,
   * the counter falls by one per tick, and the explosion runs on.
   */
  lemma {:induction false} PauseHolds(s: State, samples: seq<int>)
    requires Inv(s) && s.paused && |samples| < s.pauseCounter
    ensures var t := Run(s, samples);
            && Inv(t)
            && t.paused && t.pauseCounter == s.pauseCounter - |samples|
            && t.ring == s.ring
            && |t.explosion| == |s.explosion|
            && (forall i :: 0 <= i < |s.explosion| ==> t.explosion[i].progress == AdvanceExplosion(s.explosion[i].progress, |samples|))
    decreases |samples|
  {
    if samples != [] {
      var u := Update(s, true, samples[0]);
      HeldWhilePaused(s, samples[0]);
      UpdatePreservesInv(s, true, samples[0]);
      PauseHolds(u, samples[1..]);
      var t := Run(u, samples[1..]);
      forall i | 0 <= i < |s.explosion|
        ensures t.explosion[i].progress == AdvanceExplosion(s.explosion[i].progress, |samples|)
      {
        assert u.explosion[i].progress == ExplosionProgress(s.explosion[i].progress);
      }
    }
  }

  /**
   * The tick after those c - 1 ends the pause, provided the last ring
   * particle is not about to wrap (after a trigger it stands at 1).
   */
  lemma {:induction false} PauseEnds(s: State, samples: seq<int>)
    requires Inv(s) && s.paused && |samples| == s.pauseCounter
    requires |s.ring| > 0 ==> s.ring[|s.ring| - 1].progress >= RING_STEP
    ensures !Run(s, samples).paused
  {
    var k := |samples| - 1;
    RunLast(s, samples);
    PauseHolds(s, samples[..k]);
    ResumeRuns(Run(s, samples[..k]), samples[k]);
  }

  /** A tick that empties the counter leaves the machine running unless the ring closes at once. */
  lemma ResumeRuns(m: State, fps: int)
    requires Inv(m) && m.paused && m.pauseCounter == 1
    requires |m.ring| > 0 ==> m.ring[|m.ring| - 1].progress >= RING_STEP
    ensures !Update(m, true, fps).paused
  {
    FiresIffLastWrapped(Gate(m));
  }

  /** The last tick of a run, taken on its own. */
  lemma RunLast(s: State, samples: seq<int>)
    requires samples != []
    ensures Run(s, samples) == Update(Run(s, samples[..|samples| - 1]), true, samples[|samples| - 1])
  {
    var k := |samples| - 1;
    assert samples == samples[..k] + [samples[k]];
    RunSplit(s, samples[..k], [samples[k]]);
  }

  lemma {:induction false} RunSplit(s: State, a: seq<int>, b: seq<int>)
    ensures Run(s, a + b) == Run(Run(s, a), b)
    decreases |a|
  {
    if a != [] {
      assert (a + b)[0] == a[0] && (a + b)[1..] == a[1..] + b;
      RunSplit(Update(s, true, a[0]), a[1..], b);
    } else {
      assert a + b == b;
    }
  }

  /**
   * The machine is running with the invariant kept, the counter at
   * `counter`, `size` ring particles, and the last of them `stepsLeft`
   * ring steps from the centre.
   */
  ghost predicate Sweeping(t: State, size: nat, counter: int, stepsLeft: nat)
  {
    && Inv(t) && !t.paused && t.pauseCounter == counter
    && size > 0 && |t.ring| == size
    && t.ring[size - 1].progress == stepsLeft as real * RING_STEP
  }

  /** One running tick brings the last ring particle one step closer without firing. */
  lemma SweepStep(t: State, size: nat, counter: int, stepsLeft: nat, fps: int)
    requires Sweeping(t, size, counter, stepsLeft) && stepsLeft > 0
    ensures Sweeping(Update(t, true, fps), size, counter, stepsLeft - 1)
  {
    FiresIffLastWrapped(t);
    UpdatePreservesInv(t, true, fps);
    var u := Update(t, true, fps);
    assert u.ring[size - 1].progress == t.ring[size - 1].progress - RING_STEP;
  }

  /**
   * While running, a last ring particle standing `n` steps from the centre
   * comes one step closer on each of the next `n` ticks: after any `k` of
   * them the machine is still running (the trigger has not fired on the
   * way) and the particle stands `n - k` steps out.
   */
  lemma {:induction false} RunDown(s: State, samples: seq<int>, k: nat)
    requires Inv(s) && !s.paused && |s.ring| > 0
    requires s.ring[|s.ring| - 1].progress == |samples| as real * RING_STEP
    requires k <= |samples|
    ensures Sweeping(Run(s, samples[..k]), |s.ring|, s.pauseCounter, |samples| - k)
    decreases k
  {
    if k == 0 {
      assert samples[..k] == [];
    } else {
      RunDown(s, samples, k - 1);
      var before := Run(s, samples[..k - 1]);
      SweepStep(before, |s.ring|, s.pauseCounter, |samples| - (k - 1), samples[k - 1]);
      RunLast(s, samples[..k]);
      assert samples[..k][..k - 1] == samples[..k - 1];
    }
  }

  /** A running tick on which the last ring particle stands at the centre closes the heart. */
  lemma CloseTick(s: State, fps: int)
    requires Inv(s) && !s.paused && |s.ring| > 0 && s.ring[|s.ring| - 1].progress == 0.0
    ensures var t := Update(s, true, fps);
            && t.paused && t.pauseCounter == PAUSE_TICKS
            && |t.ring| == |s.ring| && t.ring[|t.ring| - 1].progress == 1.0
  {
  }

  /**
   * From the tick the heart closes, 9 ticks hold it and the 10th resumes the
   * sweep with the last ring particle one step in from the rim.
   */
  lemma {:induction false} HoldThenResume(s: State, samples: seq<int>)
    requires Inv(s) && s.paused && s.pauseCounter == PAUSE_TICKS
    requires |s.ring| > 0 && s.ring[|s.ring| - 1].progress == 1.0
    requires |samples| == 10
    ensures var t := Run(s, samples);
            && Inv(t) && !t.paused && t.pauseCounter == 0
            && |t.ring| == |s.ring| && t.ring[|t.ring| - 1].progress == 1.0 - RING_STEP
  {
    var a, b := samples[..9], samples[9..];
    assert samples == a + b;
    RunSplit(s, a, b);
    PauseHolds(s, a);
    var held := Run(s, a);
    assert b == [samples[9]];
    assert Run(held, b) == Update(held, true, samples[9]);
    ResumeTick(held, samples[9]);
    UpdatePreservesInv(held, true, samples[9]);
  }

  /**
   * After the heart closes, ticks 10 to 209 find the machine running, with
   * the last ring particle one step closer to the centre each tick, and at
   * the centre after tick 209.
   */
  lemma {:induction false} HoldThenRunDown(s: State, samples: seq<int>)
    requires Inv(s) && s.paused && s.pauseCounter == PAUSE_TICKS
    requires |s.ring| > 0 && s.ring[|s.ring| - 1].progress == 1.0
    requires |samples| == 209
    ensures forall k :: 10 <= k <= 209 ==> Sweeping(Run(s, samples[..k]), |s.ring|, 0, 209 - k)
  {
    var ab, c := samples[..10], samples[10..];
    HoldThenResume(s, ab);
    var resumed := Run(s, ab);
    assert 1.0 - RING_STEP == |c| as real * RING_STEP;
    forall k | 10 <= k <= 209
      ensures Sweeping(Run(s, samples[..k]), |s.ring|, 0, 209 - k)
    {
      RunDown(resumed, c, k - 10);
      assert samples[..k] == ab + c[..k - 10];
      RunSplit(s, ab, c[..k - 10]);
    }
  }

  /**
   * The whole cycle after the heart closes: ticks 1 to 9 hold it, ticks 10
   * to 209 run the sweep without closing it, and tick 210 closes it again
   * with the counter back at 10 and the last ring particle at 1.
   */
  lemma {:induction false} CycleLength(s: State, samples: seq<int>)
    requires Inv(s) && s.paused && s.pauseCounter == PAUSE_TICKS
    requires |s.ring| > 0 && s.ring[|s.ring| - 1].progress == 1.0
    requires |samples| == 210
    ensures forall k :: 0 <= k < 10 ==> Run(s, samples[..k]).paused
    ensures forall k :: 10 <= k < 210 ==> !Run(s, samples[..k]).paused
    ensures var t := Run(s, samples);
            && t.paused && t.pauseCounter == PAUSE_TICKS
            && |t.ring| == |s.ring| && t.ring[|t.ring| - 1].progress == 1.0
  {
    forall k | 0 <= k < 10 ensures Run(s, samples[..k]).paused {
      PauseHolds(s, samples[..k]);
    }
    var a, d := samples[..209], samples[209..];
    HoldThenRunDown(s, a);
    forall k | 10 <= k < 210 ensures !Run(s, samples[..k]).paused {
      assert samples[..k] == a[..k];
    }
    assert a[..209] == a;
    var down := Run(s, a);
    assert samples == a + d;
    RunSplit(s, a, d);
    assert d == [samples[209]];
    assert Run(down, d) == Update(down, true, samples[209]);
    CloseTick(down, samples[209]);
  }

  /**
   * An explosion particle started from 0 moves out by one step per tick and
   * stops at exactly 1 after 25 ticks.
   */
  lemma {:induction false} ExplosionFromZero(n: nat)
    ensures AdvanceExplosion(0.0, n) == (if n < 25 then n else 25) as real * EXPLOSION_STEP
  {
    ExplosionFrom(0, n);
  }

  lemma {:induction false} ExplosionFrom(k: nat, n: nat)
    requires k <= 25
    ensures AdvanceExplosion(k as real * EXPLOSION_STEP, n) == (if k + n < 25 then k + n else 25) as real * EXPLOSION_STEP
    decreases n
  {
    if n > 0 {
      if k < 25 {
        assert ExplosionProgress(k as real * EXPLOSION_STEP) == (k + 1) as real * EXPLOSION_STEP;
        ExplosionFrom(k + 1, n - 1);
      } else {
        assert ExplosionProgress(k as real * EXPLOSION_STEP) == k as real * EXPLOSION_STEP;
        ExplosionFrom(k, n - 1);
      }
    }
  }

  // ------------------------------------------------ frame-rate history

  /** The history after recording each sample in turn. */
  function RecordAll(history: seq<Option<int>>, samples: seq<int>): seq<Option<int>>
    decreases |samples|
  {
    if samples == [] then history else RecordAll(RecordFps(history, samples[0]), samples[1..])
  }

  /**
   * Starting empty, the history holds the five most recent samples, newest
   * first, with unset slots after them while fewer than five were taken.
   */
  lemma {:induction false} HistoryHoldsLatest(samples: seq<int>)
    requires samples != []
    ensures var h := RecordAll([], samples);
            && |h| == FPS_SAMPLES
            && forall i :: 0 <= i < FPS_SAMPLES ==>
                 h[i] == if i < |samples| then Some(samples[|samples| - 1 - i]) else None
  {
    HistoryAfter([], samples);
  }

  lemma {:induction false} HistoryAfter(history: seq<Option<int>>, samples: seq<int>)
    requires samples != []
    ensures var h := RecordAll(history, samples);
            && |h| == FPS_SAMPLES
            && forall i :: 0 <= i < FPS_SAMPLES ==>
                 h[i] == if i < |samples| then Some(samples[|samples| - 1 - i])
                         else if i - |samples| < |history| then history[i - |samples|] else None
    decreases |samples|
  {
    var h1 := RecordFps(history, samples[0]);
    if |samples| > 1 {
      HistoryAfter(h1, samples[1..]);
    }
  }
}
