/**
 * The idle camera orbit: while the scene is idle the orbit controls follow
 * a slow idle path; on entering idle the camera eases from where it was
 * onto that path over 1.2 seconds; leaving idle hands the camera back.
 * The idle path itself (sines and cosines of the idle clock) is an input.
 */
module IdleOrbit {
  import opened Wrappers

  const TransitionDuration: real := 1.2
  const DefaultIdleSpeed: real := 0.12
  /** The idle speed flips sign this many milliseconds after mounting. */
  const SpeedFlipDelay := 5000

  datatype Vec3 = Vec3(x: real, y: real, z: real)

  /** What the frame callback reads and sets on the orbit controls. */
  datatype Pose = Pose(azimuth: real, polar: real, target: Vec3)

  /** A running ease onto the idle path, from the pose held when idle began. */
  datatype Transition = Transition(elapsed: real, start: Pose)

  // ---------------------------------------------------------------------
  // Easing

  /** `Math.min(elapsed / 1.2, 1)`. */
  function Progress(elapsed: real): (p: real)
    ensures elapsed >= 0.0 ==> 0.0 <= p
    ensures p <= 1.0
    ensures p == 1.0 <==> elapsed >= TransitionDuration
    ensures elapsed < TransitionDuration ==> p * TransitionDuration == elapsed
  {
    if elapsed / TransitionDuration < 1.0 then elapsed / TransitionDuration else 1.0
  }

  /** The smoothstep curve `p * p * (3 - 2 * p)`. */
  function Smooth(p: real): real {
    p * p * (3.0 - 2.0 * p)
  }

  /** On [0, 1] the smoothstep stays in [0, 1] and fixes both ends. */
  lemma SmoothBounds(p: real)
    requires 0.0 <= p <= 1.0
    ensures 0.0 <= Smooth(p) <= 1.0
    ensures p == 0.0 ==> Smooth(p) == 0.0
    ensures p == 1.0 ==> Smooth(p) == 1.0
  {
    var q := 1.0 - p;
    assert p * p >= 0.0;
    assert 3.0 - 2.0 * p >= 1.0;
    assert Smooth(p) >= 0.0 by {
      assert p * p * (3.0 - 2.0 * p) >= p * p * 1.0;
    }
    assert 1.0 - Smooth(p) == q * q * (1.0 + 2.0 * p);
    assert q * q >= 0.0;
    assert q * q * (1.0 + 2.0 * p) >= 0.0;
  }

  /** The smoothstep never goes backwards on [0, 1]. */
  lemma SmoothMonotone(p: real, q: real)
    requires 0.0 <= p <= q <= 1.0
    ensures Smooth(p) <= Smooth(q)
  {
    var g := q * q + q * p + p * p;
    SlopeNonNegative(p, q);
    SmoothDifference(p, q);
    Distribute(q - p, q + p, g);
    NonNegativeProduct(q - p, 3.0 * (q + p) - 2.0 * g);
  }

  /** The second factor of the difference of two smoothsteps is never negative on [0, 1]. */
  lemma SlopeNonNegative(p: real, q: real)
    requires 0.0 <= p <= q <= 1.0
    ensures 3.0 * (q + p) - 2.0 * (q * q + q * p + p * p) >= 0.0
  {
    ProductAtMost(q, q);
    ProductAtMost(q, p);
    ProductAtMost(p, p);
    var qq, qp, pp := q * q, q * p, p * p;
    assert qq <= q && qp <= q && qp <= p && pp <= p;
  }

  /** The difference of two smoothsteps, as differences of squares and of cubes. */
  lemma SmoothDifference(p: real, q: real)
    ensures Smooth(q) - Smooth(p) == 3.0 * ((q - p) * (q + p)) - 2.0 * ((q - p) * (q * q + q * p + p * p))
  {
    assert (q - p) * (q + p) == q * q - p * p;
    assert (q - p) * (q * q + q * p + p * p) == q * q * q - p * p * p;
    assert Smooth(q) == 3.0 * (q * q) - 2.0 * (q * q * q);
    assert Smooth(p) == 3.0 * (p * p) - 2.0 * (p * p * p);
  }

  lemma Distribute(k: real, a: real, b: real)
    ensures k * (3.0 * a - 2.0 * b) == 3.0 * (k * a) - 2.0 * (k * b)
  {
  }

  lemma NonNegativeProduct(a: real, b: real)
    requires a >= 0.0 && b >= 0.0
    ensures a * b >= 0.0
  {
  }

  /** On [0, 1] a product is at most either factor. */
  lemma ProductAtMost(a: real, b: real)
    requires 0.0 <= a <= 1.0 && 0.0 <= b <= 1.0
    ensures a * b <= a && a * b <= b
  {
    NonNegativeProduct(a, 1.0 - b);
    NonNegativeProduct(1.0 - a, b);
  }

  function Lerp(a: real, b: real, e: real): real {
    a + (b - a) * e
  }

  /** The pose `eased` of the way from `start` to `idle`, angle by angle and target by target coordinate. */
  function Blend(start: Pose, idle: Pose, eased: real): Pose {
    Pose(Lerp(start.azimuth, idle.azimuth, eased),
         Lerp(start.polar, idle.polar, eased),
         Vec3(Lerp(start.target.x, idle.target.x, eased),
              Lerp(start.target.y, idle.target.y, eased),
              Lerp(start.target.z, idle.target.z, eased)))
  }

  /** A blend at 0 is the start pose and a blend at 1 is the idle pose. */
  lemma BlendEnds(start: Pose, idle: Pose)
    ensures Blend(start, idle, 0.0) == start
    ensures Blend(start, idle, 1.0) == idle
  {
  }

  /** A transition that reaches full progress lands exactly on the idle pose. */
  lemma FinishedBlendIsIdle(start: Pose, idle: Pose, elapsed: real)
    requires Progress(elapsed) >= 1.0
    ensures Blend(start, idle, Smooth(Progress(elapsed))) == idle
  {
    SmoothBounds(1.0);
    BlendEnds(start, idle);
  }

  // ---------------------------------------------------------------------
  // The component's frame state

  class IdleOrbitControls {
    var idleSpeed: real
    /** The 5-second timeout that flips the idle speed is still pending. */
    var speedTimerPending: bool
    var idleTime: real
    var prevIsIdle: bool
    var transition: Option<Transition>
    /** The orbit controls' pose; absent while the controls are not mounted. */
    var controls: Option<Pose>

    /** A transition runs only while idle, and it never outlives its 1.2 seconds. */
    ghost predicate Valid()
      reads this
    {
      idleTime >= 0.0 &&
      (transition.Some? ==> prevIsIdle && 0.0 <= transition.value.elapsed < TransitionDuration)
    }

    constructor(initialIdleSpeed: real, isIdle: bool, controls: Option<Pose>)
      ensures Valid()
      ensures idleSpeed == initialIdleSpeed && speedTimerPending
      ensures idleTime == 0.0 && prevIsIdle == isIdle && transition.None? && this.controls == controls
    {
      idleSpeed := initialIdleSpeed;
      speedTimerPending := true;
      idleTime := 0.0;
      prevIsIdle := isIdle;
      transition := None;
      this.controls := controls;
    }

    /**
     * One frame. `idlePath(t, speed)` is the idle pose at idle time `t`.
     * Without controls nothing changes. Otherwise a transition starts only
     * on entering idle, from the current pose; leaving idle drops it; while
     * idle the idle clock advances by `delta` and the pose is the blend of
     * the running transition or, without one, the idle pose; a transition
     * that reaches full progress ends on the idle pose.
     */
    method Frame(isIdle: bool, delta: real, idlePath: (real, real) -> Pose)
      requires Valid() && delta >= 0.0
      modifies this
      ensures Valid()
      ensures old(controls).None? ==> unchanged(this)
      ensures idleSpeed == old(idleSpeed) && speedTimerPending == old(speedTimerPending)
      ensures old(controls).Some? ==> prevIsIdle == isIdle && controls.Some?
      ensures old(controls).Some? && !isIdle ==> transition.None? && idleTime == old(idleTime) && controls == old(controls)
      ensures old(controls).Some? && isIdle ==> idleTime == old(idleTime) + delta
      ensures old(controls).Some? && transition.Some? ==> isIdle
      ensures transition.Some? && old(transition).None? ==>
                !old(prevIsIdle) && transition.value == Transition(delta, old(controls).value)
      ensures old(controls).Some? && transition.Some? && old(transition).Some? ==>
                transition.value == Transition(old(transition).value.elapsed + delta, old(transition).value.start)
      ensures old(controls).Some? && isIdle && !old(prevIsIdle) ==>
                controls == Some(Blend(old(controls).value, idlePath(idleTime, idleSpeed), Smooth(Progress(delta))))
      ensures old(controls).Some? && isIdle && old(prevIsIdle) && old(transition).Some? ==>
                controls == Some(Blend(old(transition).value.start, idlePath(idleTime, idleSpeed),
                                       Smooth(Progress(old(transition).value.elapsed + delta))))
      ensures old(controls).Some? && isIdle && transition.None? ==> controls == Some(idlePath(idleTime, idleSpeed))
    {
      if controls.None? {
        return;
      }
      var pose := controls.value;
      if isIdle && !prevIsIdle {
        transition := Some(Transition(0.0, pose));
      } else if !isIdle {
        transition := None;
      }
      prevIsIdle := isIdle;
      if isIdle {
        idleTime := idleTime + delta;
        var idle := idlePath(idleTime, idleSpeed);
        match transition
        case Some(tr) =>
          var elapsed := tr.elapsed + delta;
          var progress := Progress(elapsed);
          controls := Some(Blend(tr.start, idle, Smooth(progress)));
          if progress >= 1.0 {
            FinishedBlendIsIdle(tr.start, idle, elapsed);
            transition := None;
          } else {
            transition := Some(Transition(elapsed, tr.start));
          }
        case None =>
          controls := Some(idle);
      }
    }

    /** The 5-second timeout: the idle speed is negated, once. */
    method SpeedTimerFires()
      requires speedTimerPending
      modifies this
      ensures idleSpeed == -old(idleSpeed) && !speedTimerPending
      ensures idleTime == old(idleTime) && prevIsIdle == old(prevIsIdle)
      ensures transition == old(transition) && controls == old(controls)
    {
      idleSpeed := -idleSpeed;
      speedTimerPending := false;
    }

    /** Unmounting clears the pending timeout, so the speed is never flipped afterwards. */
    method Unmount()
      modifies this
      ensures !speedTimerPending && idleSpeed == old(idleSpeed)
      ensures idleTime == old(idleTime) && prevIsIdle == old(prevIsIdle)
      ensures transition == old(transition) && controls == old(controls)
    {
      speedTimerPending := false;
    }
  }
}
