/**
 * The application object: its pause flag and counter, the two particle
 * arrays whose progress it rewrites in place every frame, and the rolling
 * frame-rate history. Drawing is not modelled; each method keeps only the
 * state changes of the routine it is named after.
 */
module HeartApp {
  import opened Wrappers
  import opened Particles
  import opened Animation

  class App {
    var paused: bool
    var pauseCounter: int
    var particles: array<Particle>
    var explosionParticles: array<Particle>
    var fpsHistory: seq<Option<int>>

    /** The state as a value, for the specification in module Animation. */
    ghost function Model(): State
      reads this, particles, explosionParticles
    {
      State(paused, pauseCounter, particles[..], explosionParticles[..], fpsHistory)
    }

    ghost predicate Valid()
      reads this, particles, explosionParticles
    {
      particles != explosionParticles && Inv(Model())
    }

    /**
     * Sets up both collections, then runs one `update` without a timestamp,
     * which records the first frame-rate sample.
     */
    constructor (initialFps: int)
      ensures Valid() && fresh(particles) && fresh(explosionParticles)
      ensures !paused && pauseCounter == INITIAL_PAUSE_COUNTER
      ensures Generated(particles[..], RING_COUNT, None)
      ensures Generated(explosionParticles[..], EXPLOSION_COUNT, Some(0.0))
      ensures fpsHistory == RecordFps([], initialFps)
    {
      fpsHistory := [];
      paused := false;
      pauseCounter := INITIAL_PAUSE_COUNTER;
      particles := new Particle[0];
      explosionParticles := new Particle[0];
      new;
      SetUpVars();
      Update(false, initialFps);
    }

    /** Regenerates both collections (also what a resize does); the pause state is kept. */
    method SetUpVars()
      requires Valid()
      modifies this
      ensures Valid() && fresh(particles) && fresh(explosionParticles)
      ensures paused == old(paused) && pauseCounter == old(pauseCounter) && fpsHistory == old(fpsHistory)
      ensures Generated(particles[..], RING_COUNT, None)
      ensures Generated(explosionParticles[..], EXPLOSION_COUNT, Some(0.0))
    {
      var ring := GetParticles(RING_COUNT, None);
      var explosion := GetParticles(EXPLOSION_COUNT, Some(0.0));
      particles := new Particle[|ring|](i requires 0 <= i < |ring| => ring[i]);
      explosionParticles := new Particle[|explosion|](i requires 0 <= i < |explosion| => explosion[i]);
      assert particles[..] == ring && explosionParticles[..] == explosion;
    }

    /**
     * One frame: with a timestamp, the pause countdown and then `Draw`;
     * always, a new frame-rate sample.
     */
    method Update(hasTimestamp: bool, fps: int)
      requires Valid()
      modifies this, particles, explosionParticles
      ensures Valid()
      ensures particles == old(particles) && explosionParticles == old(explosionParticles)
      ensures Model() == Animation.Update(old(Model()), hasTimestamp, fps)
    {
      ghost var s := Model();
      if hasTimestamp {
        if paused {
          pauseCounter := pauseCounter - 1;
          if pauseCounter <= 0 {
            paused := false;
          }
        }
        assert Model() == Gate(s);
        Draw();
      }
      fpsHistory := RecordFps(fpsHistory, fps);
      UpdatePreservesInv(s, hasTimestamp, fps);
    }

    /**
     * The state changes of one `draw`: step each ring particle in order, and
     * after the last one fire the trigger if the ring has just closed; then
     * advance the explosion particles that have not reached the end.
     */
    method Draw()
      requires particles != explosionParticles
      modifies this, particles, explosionParticles
      ensures particles == old(particles) && explosionParticles == old(explosionParticles)
      ensures Model() == Animation.Draw(old(Model()))
    {
      ghost var paused0 := paused;
      ghost var stepped := StepRing(particles[..], paused);
      ghost var fires := Fires(paused, stepped);
      ghost var explosion0 := explosionParticles[..];
      var n := particles.Length;
      for pid := 0 to n
        invariant particles == old(particles) && explosionParticles == old(explosionParticles)
        invariant fpsHistory == old(fpsHistory)
        invariant forall j :: 0 <= j < pid ==> particles[j] == stepped[j]
        invariant forall j :: pid <= j < n ==> particles[j] == old(particles[j])
        invariant paused == (paused0 || (pid == n && fires))
        invariant pauseCounter == if pid == n && fires then PAUSE_TICKS else old(pauseCounter)
        invariant explosionParticles[..] == if pid == n && fires then ResetProgress(explosion0) else explosion0
      {
        if !paused {
          particles[pid] := particles[pid].(progress := particles[pid].progress - RING_STEP);
        }
        if particles[pid].progress < 0.0 {
          particles[pid] := particles[pid].(progress := 1.0);
        }
        if !paused && pid == n - 1 && particles[pid].progress == 1.0 {
          paused := true;
          pauseCounter := PAUSE_TICKS;
          ResetExplosion();
        }
      }
      assert particles[..] == stepped;

      ghost var explosion1 := explosionParticles[..];
      var m := explosionParticles.Length;
      for pid := 0 to m
        invariant particles == old(particles) && explosionParticles == old(explosionParticles)
        invariant paused == (paused0 || fires) && fpsHistory == old(fpsHistory)
        invariant pauseCounter == if fires then PAUSE_TICKS else old(pauseCounter)
        invariant particles[..] == stepped
        invariant forall j :: 0 <= j < pid ==> explosionParticles[j] == StepExplosion(explosion1)[j]
        invariant forall j :: pid <= j < m ==> explosionParticles[j] == explosion1[j]
      {
        if explosionParticles[pid].progress < 1.0 {
          explosionParticles[pid] := explosionParticles[pid].(progress := explosionParticles[pid].progress + EXPLOSION_STEP);
        }
      }
      assert explosionParticles[..] == StepExplosion(explosion1);
    }

    /** The trigger's reset: every explosion particle back to the centre. */
    method ResetExplosion()
      modifies explosionParticles
      ensures explosionParticles[..] == ResetProgress(old(explosionParticles[..]))
    {
      for pid := 0 to explosionParticles.Length
        invariant forall j :: 0 <= j < pid ==> explosionParticles[j] == old(explosionParticles[j]).(progress := 0.0)
        invariant forall j :: pid <= j < explosionParticles.Length ==> explosionParticles[j] == old(explosionParticles[j])
      {
        explosionParticles[pid] := explosionParticles[pid].(progress := 0.0);
      }
    }
  }
}
