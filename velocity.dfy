/** The two velocity estimators of the pad: the hit velocity from the peak of
    the rise, and the release velocity from the duration of the fall. */
module Velocity {
  import opened Clock
  import opened Numeric
  import opened PadConfig

  /** The peak as the Hit state uses it: limited to `hit.max`. */
  function ClampPeak(hit: HitConfig, peak: real): (p: real)
    ensures p <= hit.max && p <= peak
    ensures p == peak || p == hit.max
  {
    if peak > hit.max then hit.max else peak
  }

  /** The hit velocity: the peak limited to `hit.max`, normalised over
      [hit.min, hit.max], passed through the hit curve and scaled up to the
      next whole step. The Hit state is only entered with a peak above
      `hit.min`. */
  function HitVelocity(hit: HitConfig, nSteps: nat, peak: real): (v: nat)
    requires ValidHit(hit) && 1 <= nSteps
    requires peak > hit.min
    ensures v <= nSteps - 1
  {
    var f := hit.curve(Normalize(ClampPeak(hit, peak), hit.min, hit.max));
    ScaleWithin(f, (nSteps - 1) as real);
    Ceil(f * (nSteps - 1) as real)
  }

  /** A peak at or above `hit.max` scores the top step. */
  lemma HitVelocitySaturates(hit: HitConfig, nSteps: nat, peak: real)
    requires ValidHit(hit) && 1 <= nSteps
    requires peak >= hit.max
    ensures HitVelocity(hit, nSteps, peak) == nSteps - 1
  {
    assert ClampPeak(hit, peak) == hit.max;
    assert Normalize(hit.max, hit.min, hit.max) == 1.0;
  }

  /** A higher peak never scores a lower hit velocity. */
  lemma HitVelocityMonotone(hit: HitConfig, nSteps: nat, p: real, q: real)
    requires ValidHit(hit) && 1 <= nSteps
    requires hit.min < p <= q
    ensures HitVelocity(hit, nSteps, p) <= HitVelocity(hit, nSteps, q)
  {
    var cp, cq := ClampPeak(hit, p), ClampPeak(hit, q);
    assert cp <= cq;
    NormalizeMonotone(cp, cq, hit.min, hit.max);
    var np, nq := Normalize(cp, hit.min, hit.max), Normalize(cq, hit.min, hit.max);
    assert hit.curve(np) <= hit.curve(nq);
    var n := (nSteps - 1) as real;
    ScaleMonotone(hit.curve(np), hit.curve(nq), n);
    CeilMonotone(hit.curve(np) * n, hit.curve(nq) * n);
    assert HitVelocity(hit, nSteps, p) == Ceil(hit.curve(np) * n);
    assert HitVelocity(hit, nSteps, q) == Ceil(hit.curve(nq) * n);
  }

  /** A fall duration limited to [release.minUsec, release.maxUsec]. */
  function ClampDuration(release: ReleaseConfig, duration: U32): (d: nat)
    requires ValidRelease(release)
    ensures release.minUsec <= d <= release.maxUsec
    ensures release.minUsec <= duration <= release.maxUsec ==> d == duration
  {
    if duration > release.maxUsec then release.maxUsec
    else if duration < release.minUsec then release.minUsec
    else duration
  }

  /** The release velocity: the clamped fall duration normalised over the
      duration range and mapped linearly and inverted onto [127, 1], then
      truncated; a short fall is an energetic release. */
  function ReleaseVelocity(release: ReleaseConfig, duration: U32): (v: nat)
    requires ValidRelease(release)
    ensures 1 <= v <= 127
    ensures duration <= release.minUsec ==> v == 127
    ensures duration >= release.maxUsec ==> v == 1
  {
    var f := Normalize(ClampDuration(release, duration) as real,
                       release.minUsec as real, release.maxUsec as real);
    Trunc(127.0 - f * 126.0)
  }

  /** A longer fall never yields a higher release velocity. */
  lemma ReleaseVelocityNonIncreasing(release: ReleaseConfig, d: U32, e: U32)
    requires ValidRelease(release)
    requires d <= e
    ensures ReleaseVelocity(release, e) <= ReleaseVelocity(release, d)
  {
    var cd, ce := ClampDuration(release, d), ClampDuration(release, e);
    assert cd <= ce;
    NormalizeMonotone(cd as real, ce as real, release.minUsec as real, release.maxUsec as real);
  }

  /** A configuration of the hit scoring with 128 steps over [0.1, 0.9] and
      the linear curve (exponent 1). */
  function LinearHit(): (hit: HitConfig)
    ensures ValidHit(hit)
  {
    HitConfig(0.1, 0.9, x => x, 2000, 50000, 100000, 50000)
  }

  /** Worked example: with 128 steps over [0.1, 0.9] and exponent 1, a peak of
      0.5 lies halfway, 63.5 steps up, and scores 64. */
  lemma HitVelocityExample()
    ensures HitVelocity(LinearHit(), 128, 0.5) == 64
  {
    assert Normalize(0.5, 0.1, 0.9) == 0.5;
  }

  /** Worked examples: over [5000, 50000] microseconds, a fall of 27500 (the
      midpoint) gives 64, and a fall of 3000 (below the range) gives 127. */
  lemma ReleaseVelocityExamples()
    ensures ReleaseVelocity(ReleaseConfig(5000, 50000), 27500) == 64
    ensures ReleaseVelocity(ReleaseConfig(5000, 50000), 3000) == 127
  {
    assert Normalize(27500.0, 5000.0, 50000.0) == 0.5;
  }
}
