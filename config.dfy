/** The static calibration of a pad: the `Config` struct the embedding
    application fills in and hands to the pad by pointer. */
module PadConfig {
  import opened Clock

  /** A correction curve on the normalised range: the model's stand-in for
      `powf(x, exponent)` with a positive exponent. It maps 0 to 0 and 1 to 1,
      stays within [0, 1] and never decreases. */
  ghost predicate IsCurve(curve: real -> real) {
    curve(0.0) == 0.0 && curve(1.0) == 1.0 &&
    (forall x :: 0.0 <= x <= 1.0 ==> 0.0 <= curve(x) <= 1.0) &&
    (forall x, y :: 0.0 <= x <= y <= 1.0 ==> curve(x) <= curve(y))
  }

  /** `Config.pressure`: the active part of the analog range and its curve. */
  datatype PressureConfig = PressureConfig(min: real, max: real, curve: real -> real)

  /** `Config.hit`: the range and curve that score a hit, and its four timers. */
  datatype HitConfig = HitConfig(
    min: real,
    max: real,
    curve: real -> real,
    risingUsec: U32,
    holdUsec: U32,
    pressureDelayUsec: U32,
    releaseUsec: U32)

  /** `Config.release`: the fall durations mapped onto release velocities. */
  datatype ReleaseConfig = ReleaseConfig(minUsec: nat, maxUsec: nat)

  datatype Config = Config(
    nSteps: nat,
    alpha: real,
    lag: real,
    pressure: PressureConfig,
    hit: HitConfig,
    release: ReleaseConfig)

  /** What the hit velocity needs: a non-empty hit range and a curve. */
  ghost predicate ValidHit(hit: HitConfig) {
    hit.min < hit.max && IsCurve(hit.curve)
  }

  /** What the release velocity needs: a non-empty duration range. */
  predicate ValidRelease(release: ReleaseConfig) {
    release.minUsec < release.maxUsec
  }

  /** A configuration the pad can run on: at least one step and no more than
      a `uint8_t` step can hold, and no zero-width range to divide by. */
  ghost predicate ValidConfig(cfg: Config) {
    1 <= cfg.nSteps <= 256 &&
    cfg.pressure.min < cfg.pressure.max && IsCurve(cfg.pressure.curve) &&
    ValidHit(cfg.hit) &&
    ValidRelease(cfg.release)
  }
}
