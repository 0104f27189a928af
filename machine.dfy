/** The pad's runtime state as values, and one loop() pass as pure functions
    of it: the specification the class `PadImpl.Pad` is proved against. */
module PadSpec {
  import opened Clock
  import opened Numeric
  import opened PadConfig
  import opened Velocity

  /** A pass less than this many microseconds after `_now.usec` is skipped. */
  const TickFloorUsec: int := 500

  /** A new step is recorded only this many microseconds after `_pressure.usec`. */
  const PressureIntervalUsec: int := 20 * 1000

  /** The six states of the hit/release state machine. */
  datatype State = Idle | Rising | Hit | HitHold | HitRelease | Release

  /** The four notification callbacks of the pad, as the events they emit. */
  datatype Event =
    | HandlePressureRaw(fraction: real, step: nat)
    | HandlePressure(fraction: real, step: nat)
    | HandleHit(velocity: nat)
    | HandleRelease(velocity: nat)

  /** `_now`: the state, the time of the last processed tick (0 after
      `reset()` and after a return to Idle), the last sample, its curved
      fraction and its quantised step. */
  datatype NowGroup = NowGroup(state: State, usec: U32, analog: real, fraction: real, step: nat)

  /** `_history`: the low-pass filter memory and the edge of the hysteresis band. */
  datatype HistoryGroup = HistoryGroup(analog: real, lag: real)

  /** `_pressure`: the last recorded fraction and step (a step of 0 is
      recorded without a callback), when they were recorded
      (0 after `reset()` and after a return to Idle),
      whether confirmed pressure events are enabled, and whether a non-zero
      confirmed or raw pressure event is waiting for its terminal zero. */
  datatype PressureGroup = PressureGroup(
    fraction: real, step: nat, usec: U32, enabled: bool, sent: bool, rawSent: bool)

  /** `_rising`: the peak fraction seen while Rising and when the rise began. */
  datatype RisingGroup = RisingGroup(pressure: real, usec: U32)

  /** `_hit`: the hit velocity, and when the hit, the hold and the release began. */
  datatype HitGroup = HitGroup(velocity: nat, usec: U32, holdUsec: U32, releaseUsec: U32)

  /** `_falling`: when and at which step the current fall began, and the
      release velocity. */
  datatype FallingGroup = FallingGroup(usec: U32, step: nat, velocity: nat)

  /** The whole runtime state of one pad. */
  datatype Machine = Machine(
    now: NowGroup,
    history: HistoryGroup,
    pressure: PressureGroup,
    rising: RisingGroup,
    hit: HitGroup,
    falling: FallingGroup)

  /** The value-initialised groups (`= {}` in the source). */
  const NowZero := NowGroup(Idle, 0, 0.0, 0.0, 0)
  const HistoryZero := HistoryGroup(0.0, 0.0)
  const PressureZero := PressureGroup(0.0, 0, 0, false, false, false)
  const RisingZero := RisingGroup(0.0, 0)
  const HitZero := HitGroup(0, 0, 0, 0)
  const FallingZero := FallingGroup(0, 0, 0)

  /** The state after construction and after `reset()`. */
  const ResetMachine := Machine(NowZero, HistoryZero, PressureZero, RisingZero, HitZero, FallingZero)

  /** What one part of a tick produces: the new state and the callbacks it
      invoked, in order. */
  datatype Effect = Effect(machine: Machine, events: seq<Event>)

  /** The states of a cycle before its hit could have been emitted. */
  predicate BeforeHit(s: State) {
    s == Idle || s == Rising || s == Hit
  }

  /** The states in which a hit of the cycle is emitted and not yet released. */
  predicate HitHeld(s: State) {
    s == HitHold || s == HitRelease
  }

  /** The invariant every reachable state keeps: steps and velocities within
      their ranges, fractions within [0, 1], a peak above `hit.min` whenever
      the Hit state is to score it, and confirmed pressure disabled until the
      cycle has passed the point where its hit would be emitted. */
  ghost predicate Inv(cfg: Config, m: Machine) {
    m.now.step < cfg.nSteps && m.pressure.step < cfg.nSteps && m.falling.step < cfg.nSteps &&
    0.0 <= m.now.fraction <= 1.0 && 0.0 <= m.pressure.fraction <= 1.0 &&
    m.hit.velocity < cfg.nSteps && m.falling.velocity <= 127 &&
    (m.now.state == Hit ==> m.rising.pressure > cfg.hit.min) &&
    (BeforeHit(m.now.state) ==> !m.pressure.enabled)
  }

  /** `measure()`: low-pass filter the sample; below `pressure.min` or above
      `pressure.max` pin the fraction and step to a rail and the hysteresis
      edge beyond it; in between normalise and curve the fraction and
      recompute the step only when the fraction lies at least `lag` from the
      edge, keeping the last recorded step otherwise. */
  function Measure(cfg: Config, m: Machine, sample: real): Machine
    requires ValidConfig(cfg)
  {
    var analog := LowPass(cfg, m.history.analog, sample);
    var now := m.now.(analog := sample);
    if analog < cfg.pressure.min then
      m.(now := now.(fraction := 0.0, step := 0),
         history := HistoryGroup(analog, 0.0 - cfg.lag))
    else if analog > cfg.pressure.max then
      m.(now := now.(fraction := 1.0, step := cfg.nSteps - 1),
         history := HistoryGroup(analog, 1.0 + cfg.lag))
    else
      var fraction := cfg.pressure.curve(Normalize(analog, cfg.pressure.min, cfg.pressure.max));
      var step := if Distance(fraction, m.history.lag) >= cfg.lag then Quantize(cfg, fraction) else m.pressure.step;
      m.(now := now.(fraction := fraction, step := step),
         history := m.history.(analog := analog))
  }

  /** The single-pole low-pass filter: the new filter memory after `sample`. */
  function LowPass(cfg: Config, memory: real, sample: real): real {
    memory * (1.0 - cfg.alpha) + sample * cfg.alpha
  }

  /** `roundf(fraction * (nSteps - 1))`: the step nearest to a fraction. */
  function Quantize(cfg: Config, fraction: real): (step: nat)
    requires 1 <= cfg.nSteps && 0.0 <= fraction <= 1.0
    ensures step < cfg.nSteps
    ensures fraction == 0.0 ==> step == 0
    ensures fraction == 1.0 ==> step == cfg.nSteps - 1
  {
    ScaleWithin(fraction, (cfg.nSteps - 1) as real);
    Round(fraction * (cfg.nSteps - 1) as real)
  }

  /** `fabs(a - b)`. */
  function Distance(a: real, b: real): (d: real)
    ensures 0.0 <= d && (d == a - b || d == b - a)
  {
    if a >= b then a - b else b - a
  }

  /** Whether `sendPressure()` at time `t` records a new step: it differs from
      the last recorded one and at least 20 ms have passed since `_pressure.usec`,
      which is 0 after `reset()` and after a return to Idle. */
  predicate Emits(m: Machine, t: U32) {
    m.pressure.step != m.now.step && Elapsed(t, m.pressure.usec) >= PressureIntervalUsec
  }

  /** `sendPressure()`: on a new step (rate limited), move the hysteresis edge
      `lag` behind the fraction on the side it came from, record the step, and
      unless the step is 0 emit a confirmed pressure event (if enabled) and a
      raw pressure event. */
  function SendPressure(cfg: Config, m: Machine, t: U32): Effect {
    if !Emits(m, t) then Effect(m, [])
    else
      var f, s := m.now.fraction, m.now.step;
      var edge := if f - m.history.lag > 0.0 then f - cfg.lag else f + cfg.lag;
      var p := m.pressure.(usec := t, fraction := f, step := s);
      if s == 0 then
        Effect(m.(history := m.history.(lag := edge), pressure := p), [])
      else
        Effect(m.(history := m.history.(lag := edge),
                  pressure := p.(sent := p.sent || p.enabled, rawSent := true)),
               (if p.enabled then [HandlePressure(f, s)] else []) + [HandlePressureRaw(f, s)])
  }

  /** The state `switch` of `loop()`, at time `t`. */
  function Advance(cfg: Config, m: Machine, t: U32): Effect
    requires ValidConfig(cfg)
    requires m.now.state == Hit ==> m.rising.pressure > cfg.hit.min
  {
    match m.now.state
    case Idle =>
      if m.now.step == 0 then Effect(m, [])
      else Effect(m.(rising := m.rising.(usec := t), now := m.now.(state := Rising)), [])
    case Rising =>
      if m.now.step == 0 then Effect(m.(now := m.now.(state := Release)), [])
      else
        var rising := if m.now.fraction > m.rising.pressure then m.rising.(pressure := m.now.fraction) else m.rising;
        if Elapsed(t, rising.usec) < cfg.hit.risingUsec then Effect(m.(rising := rising), [])
        else if rising.pressure <= cfg.hit.min then
          Effect(m.(rising := rising, pressure := m.pressure.(enabled := true), now := m.now.(state := Release)), [])
        else Effect(m.(rising := rising, now := m.now.(state := Hit)), [])
    case Hit =>
      var v := HitVelocity(cfg.hit, cfg.nSteps, m.rising.pressure);
      Effect(m.(rising := m.rising.(pressure := ClampPeak(cfg.hit, m.rising.pressure)),
                hit := m.hit.(velocity := v, usec := t),
                now := m.now.(state := HitHold)),
             [HandleHit(v)])
    case HitHold =>
      var first := m.hit.holdUsec == 0;
      var hit := if first then m.hit.(holdUsec := t) else m.hit;
      var falling := if first then m.falling.(usec := t) else m.falling;
      if Elapsed(t, hit.holdUsec) < cfg.hit.holdUsec then Effect(m.(hit := hit, falling := falling), [])
      else
        var falling' := if m.now.step >= falling.step then falling.(usec := t, step := m.now.step) else falling;
        if m.now.step == 0 then
          Effect(m.(hit := hit, falling := falling', pressure := m.pressure.(enabled := true),
                    now := m.now.(state := HitRelease)), [])
        else if Elapsed(t, hit.holdUsec) > cfg.hit.pressureDelayUsec then
          Effect(m.(hit := hit, falling := falling', pressure := m.pressure.(enabled := true)), [])
        else Effect(m.(hit := hit, falling := falling'), [])
    case HitRelease =>
      var v := ReleaseVelocity(cfg.release, Elapsed(t, m.falling.usec));
      Effect(m.(hit := m.hit.(releaseUsec := t), falling := m.falling.(velocity := v),
                now := m.now.(state := Release)),
             [HandleRelease(v)])
    case Release =>
      if m.now.fraction > 0.0 || Elapsed(t, m.hit.releaseUsec) < cfg.hit.releaseUsec then Effect(m, [])
      else
        Effect(m.(now := NowZero, rising := RisingZero, hit := HitZero, pressure := PressureZero),
               TerminalZeros(m.pressure))
  }

  /** The zero events owed at the end of a cycle: a confirmed one if a
      confirmed pressure event was sent, then a raw one if a raw one was. */
  function TerminalZeros(p: PressureGroup): (zs: seq<Event>)
    ensures HandlePressure(0.0, 0) in zs <==> p.sent
    ensures HandlePressureRaw(0.0, 0) in zs <==> p.rawSent
    ensures forall e | e in zs :: e == HandlePressure(0.0, 0) || e == HandlePressureRaw(0.0, 0)
  {
    (if p.sent then [HandlePressure(0.0, 0)] else []) +
    (if p.rawSent then [HandlePressureRaw(0.0, 0)] else [])
  }

  /** The state after a processed tick has stamped its time and run `measure()`. */
  function Measured(cfg: Config, m: Machine, t: U32, sample: real): Machine
    requires ValidConfig(cfg)
  {
    Measure(cfg, m.(now := m.now.(usec := t)), sample)
  }

  /** One `loop()` pass at time `t` with the measurement `sample`: skipped
      within 500 microseconds of `_now.usec`, otherwise measure,
      send pressure and advance the state machine. */
  function Tick(cfg: Config, m: Machine, t: U32, sample: real): Effect
    requires ValidConfig(cfg)
    requires m.now.state == Hit ==> m.rising.pressure > cfg.hit.min
  {
    if Elapsed(t, m.now.usec) < TickFloorUsec then Effect(m, [])
    else
      var sent := SendPressure(cfg, Measured(cfg, m, t, sample), t);
      var advanced := Advance(cfg, sent.machine, t);
      Effect(advanced.machine, sent.events + advanced.events)
  }
}
