/** The particle record and the generator of the two particle collections. */
module Particles {
  import opened Wrappers

  /**
   * One point on a radial path. `angle` is the polar angle divided by π
   * (so a whole turn is 2.0); it is never changed after creation.
   * `progress` is the fraction of the path covered, the only mutable part.
   */
  datatype Particle = Particle(angle: real, progress: real)

  /**
   * The starting progress of a particle at the given angle (in units of π):
   * the override when there is one, otherwise the distance from the angle π,
   * so that particles near the seam start furthest along.
   */
  function InitialProgress(angle: real, initProgress: Option<real>): (r: real)
    ensures initProgress.Some? ==> r == initProgress.value
    ensures initProgress.None? && 0.0 <= angle <= 2.0 ==> 0.0 <= r <= 1.0
  {
    match initProgress
    case Some(p) => p
    case None => if angle > 1.0 then angle - 1.0 else 1.0 - angle
  }

  /** The default stagger is symmetric about the angle π. */
  lemma InitialProgressSymmetric(angle: real)
    requires 0.0 <= angle <= 2.0
    ensures InitialProgress(angle, None) == InitialProgress(2.0 - angle, None)
  {
  }

  /**
   * A collection of `count` steps: 2 * count particles at angles kπ/count
   * for k = 1 .. 2 * count, in that order, each with its initial progress.
   */
  ghost predicate Generated(particles: seq<Particle>, count: nat, initProgress: Option<real>)
  {
    && |particles| == 2 * count
    && (forall i :: 0 <= i < |particles| ==> particles[i].angle == (i + 1) as real / count as real)
    && (forall i :: 0 <= i < |particles| ==>
          particles[i].progress == InitialProgress(particles[i].angle, initProgress))
  }

  /**
   * Builds the collection of `count` steps. Its angles rise strictly and
   * span (0, 2π]; without an override every progress lies in [0, 1].
   */
  method GetParticles(count: nat, initProgress: Option<real>) returns (particles: seq<Particle>)
    ensures Generated(particles, count, initProgress)
    ensures forall i, j :: 0 <= i < j < |particles| ==> particles[i].angle < particles[j].angle
    ensures forall i :: 0 <= i < |particles| ==> 0.0 < particles[i].angle <= 2.0
    ensures count > 0 ==> particles[|particles| - 1].angle == 2.0
    ensures initProgress.None? ==> forall i :: 0 <= i < |particles| ==> 0.0 <= particles[i].progress <= 1.0
  {
    particles := [];
    var k := 1;
    while k <= 2 * count
      invariant 1 <= k <= 2 * count + 1
      invariant |particles| == k - 1
      invariant forall i :: 0 <= i < |particles| ==> particles[i].angle == (i + 1) as real / count as real
      invariant forall i :: 0 <= i < |particles| ==>
                  particles[i].progress == InitialProgress(particles[i].angle, initProgress)
    {
      var angle := k as real / count as real;
      var progress: real;
      if initProgress.None? {
        progress := if angle > 1.0 then angle - 1.0 else 1.0 - angle;
      } else {
        progress := initProgress.value;
      }
      particles := particles + [Particle(angle, progress)];
      k := k + 1;
    }
    AnglesIncreasing(count, particles);
  }

  /** Angles kπ/count for k = 1 .. 2 * count rise strictly and span (0, 2π]. */
  lemma AnglesIncreasing(count: nat, particles: seq<Particle>)
    requires |particles| == 2 * count
    requires forall i :: 0 <= i < |particles| ==> particles[i].angle == (i + 1) as real / count as real
    ensures forall i, j :: 0 <= i < j < |particles| ==> particles[i].angle < particles[j].angle
    ensures forall i :: 0 <= i < |particles| ==> 0.0 < particles[i].angle <= 2.0
    ensures count > 0 ==> particles[|particles| - 1].angle == 2.0
  {
    if count > 0 {
      var c := count as real;
      forall i, j | 0 <= i < j < |particles| ensures particles[i].angle < particles[j].angle {
        DivLess((i + 1) as real, (j + 1) as real, c);
      }
      forall i | 0 <= i < |particles| ensures 0.0 < particles[i].angle <= 2.0 {
        DivBounds((i + 1) as real, c);
      }
      DivBounds((2 * count) as real, c);
    }
  }

  lemma DivLess(a: real, b: real, c: real)
    requires a < b && c > 0.0
    ensures a / c < b / c
  {
    assert a / c * c == a && b / c * c == b;
    assert (b / c - a / c) * c == b - a;
  }

  lemma DivBounds(a: real, c: real)
    requires 0.0 < a <= 2.0 * c && c > 0.0
    ensures 0.0 < a / c <= 2.0
    ensures a == 2.0 * c ==> a / c == 2.0
  {
    assert a / c * c == a;
  }
}
