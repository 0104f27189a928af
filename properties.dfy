/** What one `loop()` pass, and any run of them, promises: the invariant of
    the state, the rate limits, the rail clamping and hysteresis of
    `measure()`, the rules of `sendPressure()`, which events each state may
    emit, and the order of the event log. */
module PadProperties {
  import opened Clock
  import opened Numeric
  import opened PadConfig
  import opened Velocity
  import opened PadSpec
  import opened EventLog

  /** What the event log owes, as the state records it: a hit is open in
      HitHold and HitRelease, and the `sent`/`rawSent` flags mark a terminal
      zero as due. */
  function Owed(m: Machine): Obligations {
    Obligations(HitHeld(m.now.state), m.pressure.sent, m.pressure.rawSent)
  }

  // ---------------------------------------------------------------------------
  // measure()

  /** `measure()` keeps the step in [0, nSteps - 1] and the fraction in
      [0, 1], and stores the low-pass filtered sample as the filter memory;
      below `pressure.min` it gives fraction and step 0 with the edge at
      `-lag`, above `pressure.max` fraction 1 and step nSteps - 1 with the
      edge at `1 + lag`. */
  lemma MeasureRails(cfg: Config, m: Machine, sample: real)
    requires ValidConfig(cfg) && Inv(cfg, m)
    ensures var r, analog := Measure(cfg, m, sample), LowPass(cfg, m.history.analog, sample);
      r.history.analog == analog && r.now.analog == sample &&
      r.now.step < cfg.nSteps && 0.0 <= r.now.fraction <= 1.0 &&
      (analog < cfg.pressure.min ==>
        r.now.step == 0 && r.now.fraction == 0.0 && r.history.lag == -cfg.lag) &&
      (analog > cfg.pressure.max ==>
        r.now.step == cfg.nSteps - 1 && r.now.fraction == 1.0 && r.history.lag == 1.0 + cfg.lag)
  {
  }

  /** Inside the pressure range `measure()` takes the curved, normalised
      filter output as the fraction, and recomputes the step from it exactly
      when it lies at least `lag` from the hysteresis edge, keeping the last
      recorded step otherwise; the edge itself does not move. */
  lemma MeasureHysteresis(cfg: Config, m: Machine, sample: real)
    requires ValidConfig(cfg) && Inv(cfg, m)
    requires cfg.pressure.min <= LowPass(cfg, m.history.analog, sample) <= cfg.pressure.max
    ensures var r, analog := Measure(cfg, m, sample), LowPass(cfg, m.history.analog, sample);
      var f := cfg.pressure.curve(Normalize(analog, cfg.pressure.min, cfg.pressure.max));
      0.0 <= f <= 1.0 && r.now.fraction == f && r.history.lag == m.history.lag &&
      (Distance(f, m.history.lag) < cfg.lag ==> r.now.step == m.pressure.step) &&
      (Distance(f, m.history.lag) >= cfg.lag ==> r.now.step == Quantize(cfg, f))
  {
  }

  /** A fraction within `lag` of the edge emits nothing: the step is the last
      recorded one, so the pressure state is left as it was. */
  lemma InsideBandEmitsNothing(cfg: Config, m: Machine, t: U32, sample: real)
    requires ValidConfig(cfg) && Inv(cfg, m)
    requires var analog := LowPass(cfg, m.history.analog, sample);
      cfg.pressure.min <= analog <= cfg.pressure.max &&
      Distance(cfg.pressure.curve(Normalize(analog, cfg.pressure.min, cfg.pressure.max)), m.history.lag) < cfg.lag
    ensures var r := Measured(cfg, m, t, sample);
      SendPressure(cfg, r, t) == Effect(r, []) && r.now.step == m.pressure.step
  {
    MeasureHysteresis(cfg, m.(now := m.now.(usec := t)), sample);
  }

  /** Hysteresis follows the last move: after a step was emitted on a rising
      fraction the edge sits `lag` below it, so any further rise recomputes
      the step at once, while a fall of less than twice `lag` keeps it. After
      an emission on a falling fraction it is the other way round. */
  lemma HysteresisFollowsDirection(cfg: Config, m: Machine, sample: real)
    requires ValidConfig(cfg) && Inv(cfg, m) && 0.0 < cfg.lag
    requires cfg.pressure.min <= LowPass(cfg, m.history.analog, sample) <= cfg.pressure.max
    ensures var r, analog := Measure(cfg, m, sample), LowPass(cfg, m.history.analog, sample);
      var f := cfg.pressure.curve(Normalize(analog, cfg.pressure.min, cfg.pressure.max));
      var last := m.pressure.fraction;
      0.0 <= f <= 1.0 &&
      (m.history.lag == last - cfg.lag ==>
        (f >= last ==> r.now.step == Quantize(cfg, f)) &&
        (last - 2.0 * cfg.lag < f < last ==> r.now.step == m.pressure.step)) &&
      (m.history.lag == last + cfg.lag ==>
        (f <= last ==> r.now.step == Quantize(cfg, f)) &&
        (last < f < last + 2.0 * cfg.lag ==> r.now.step == m.pressure.step))
  {
    MeasureHysteresis(cfg, m, sample);
  }

  // ---------------------------------------------------------------------------
  // sendPressure()

  /** `sendPressure()` does nothing unless the step changed and 20 ms have
      passed since `_pressure.usec`. When it emits, it records the step, fraction and
      time, and leaves the edge exactly `lag` from the fraction on the side
      the fraction came from; a step of 0 is recorded without any callback,
      any other step gives a raw pressure event, preceded by a confirmed one
      exactly when confirmed pressure is enabled. */
  lemma SendPressureRules(cfg: Config, m: Machine, t: U32)
    ensures var r := SendPressure(cfg, m, t);
      var f, s := m.now.fraction, m.now.step;
      (!Emits(m, t) ==> r == Effect(m, [])) &&
      (Emits(m, t) ==>
        r.machine.pressure.step == s && r.machine.pressure.fraction == f &&
        r.machine.pressure.usec == t && r.machine.pressure.enabled == m.pressure.enabled &&
        r.machine.now == m.now && r.machine.history.analog == m.history.analog &&
        (f > m.history.lag ==> r.machine.history.lag == f - cfg.lag) &&
        (f <= m.history.lag ==> r.machine.history.lag == f + cfg.lag) &&
        (s == 0 ==> r.events == []) &&
        (s != 0 ==> r.events == (if m.pressure.enabled then [HandlePressure(f, s)] else []) + [HandlePressureRaw(f, s)]))
  {
  }

  /** `sendPressure()` never changes the state or what the hit and release
      logic reads. */
  lemma SendPressureFrame(cfg: Config, m: Machine, t: U32)
    ensures var r := SendPressure(cfg, m, t).machine;
      r.now == m.now && r.rising == m.rising && r.hit == m.hit && r.falling == m.falling &&
      r.pressure.enabled == m.pressure.enabled
  {
  }

  // ---------------------------------------------------------------------------
  // One tick

  /** A tick within 500 microseconds of `_now.usec` (by the wrap-safe
      difference) changes nothing and emits nothing. */
  lemma RateLimited(cfg: Config, m: Machine, t: U32, sample: real)
    requires ValidConfig(cfg) && Inv(cfg, m)
    requires Elapsed(t, m.now.usec) < TickFloorUsec
    ensures Tick(cfg, m, t, sample) == Effect(m, [])
  {
  }

  /** `measure()` keeps the invariant. */
  lemma MeasureKeepsInv(cfg: Config, m: Machine, sample: real)
    requires ValidConfig(cfg) && Inv(cfg, m)
    ensures Inv(cfg, Measure(cfg, m, sample))
  {
    MeasureRails(cfg, m, sample);
  }

  /** `sendPressure()` keeps the invariant. */
  lemma SendPressureKeepsInv(cfg: Config, m: Machine, t: U32)
    requires ValidConfig(cfg) && Inv(cfg, m)
    ensures Inv(cfg, SendPressure(cfg, m, t).machine)
  {
  }

  /** The state switch keeps the invariant. */
  lemma AdvanceKeepsInv(cfg: Config, m: Machine, t: U32)
    requires ValidConfig(cfg) && Inv(cfg, m)
    ensures Inv(cfg, Advance(cfg, m, t).machine)
  {
    if m.now.state == Hit {
      var v := HitVelocity(cfg.hit, cfg.nSteps, m.rising.pressure);
      assert v < cfg.nSteps;
    }
  }

  /** Every tick keeps the invariant. */
  lemma TickKeepsInv(cfg: Config, m: Machine, t: U32, sample: real)
    requires ValidConfig(cfg) && Inv(cfg, m)
    ensures Inv(cfg, Tick(cfg, m, t, sample).machine)
  {
    if Elapsed(t, m.now.usec) >= TickFloorUsec {
      var stamped := m.(now := m.now.(usec := t));
      MeasureKeepsInv(cfg, stamped, sample);
      var measured := Measured(cfg, m, t, sample);
      SendPressureKeepsInv(cfg, measured, t);
      AdvanceKeepsInv(cfg, SendPressure(cfg, measured, t).machine, t);
    }
  }

  /** The states a tick may lead to: the same state or the next one along
      Idle, Rising, Hit, HitHold, HitRelease, Release, Idle, with Rising also
      able to fall straight to Release; Hit and HitRelease always move on. */
  predicate MayFollow(s: State, s': State) {
    match s
    case Idle => s' == Idle || s' == Rising
    case Rising => s' == Rising || s' == Hit || s' == Release
    case Hit => s' == HitHold
    case HitHold => s' == HitHold || s' == HitRelease
    case HitRelease => s' == Release
    case Release => s' == Release || s' == Idle
  }

  lemma TickTransitions(cfg: Config, m: Machine, t: U32, sample: real)
    requires ValidConfig(cfg) && Inv(cfg, m)
    requires Elapsed(t, m.now.usec) >= TickFloorUsec
    ensures MayFollow(m.now.state, Tick(cfg, m, t, sample).machine.now.state)
  {
  }

  /** Rising with a measured step of 0 aborts the candidate: Release, no hit,
      confirmed pressure left disabled. */
  lemma RisingDropAborts(cfg: Config, m: Machine, t: U32, sample: real)
    requires ValidConfig(cfg) && Inv(cfg, m)
    requires Elapsed(t, m.now.usec) >= TickFloorUsec && m.now.state == Rising
    requires Measured(cfg, m, t, sample).now.step == 0
    ensures var r := Tick(cfg, m, t, sample);
      r.machine.now.state == Release && !r.machine.pressure.enabled &&
      forall e | e in r.events :: !e.HandleHit? && !e.HandlePressure?
  {
  }

  /** Rising whose peak is at most `hit.min` once `risingUsec` has elapsed is
      slow pressure, not a hit: Release, no hit, confirmed pressure enabled. */
  lemma RisingTooShallow(cfg: Config, m: Machine, t: U32, sample: real)
    requires ValidConfig(cfg) && Inv(cfg, m)
    requires Elapsed(t, m.now.usec) >= TickFloorUsec && m.now.state == Rising
    requires var r := Measured(cfg, m, t, sample);
      r.now.step != 0 && Elapsed(t, m.rising.usec) >= cfg.hit.risingUsec &&
      m.rising.pressure <= cfg.hit.min && r.now.fraction <= cfg.hit.min
    ensures var r := Tick(cfg, m, t, sample);
      r.machine.now.state == Release && r.machine.pressure.enabled &&
      forall e | e in r.events :: !e.HandleHit? && !e.HandlePressure?
  {
  }

  /** The peak of a rise is the largest fraction seen while Rising; a rise
      that has reached above `hit.min` once `risingUsec` has elapsed becomes
      a Hit. */
  lemma RisingTracksPeak(cfg: Config, m: Machine, t: U32, sample: real)
    requires ValidConfig(cfg) && Inv(cfg, m)
    requires Elapsed(t, m.now.usec) >= TickFloorUsec && m.now.state == Rising
    requires Measured(cfg, m, t, sample).now.step != 0
    ensures var f := Measured(cfg, m, t, sample).now.fraction;
      var r := Tick(cfg, m, t, sample).machine;
      var peak := if f > m.rising.pressure then f else m.rising.pressure;
      r.rising.pressure == peak &&
      (Elapsed(t, m.rising.usec) < cfg.hit.risingUsec ==> r.now.state == Rising) &&
      (Elapsed(t, m.rising.usec) >= cfg.hit.risingUsec && peak > cfg.hit.min ==> r.now.state == Hit)
  {
  }

  /** A hit is emitted only by a tick that starts in Hit, and each such tick
      emits exactly one, with the hit velocity of the peak, and moves to
      HitHold. */
  lemma HitOnlyFromHit(cfg: Config, m: Machine, t: U32, sample: real)
    requires ValidConfig(cfg) && Inv(cfg, m)
    ensures var r := Tick(cfg, m, t, sample);
      (exists e :: e in r.events && e.HandleHit?) ==>
        Elapsed(t, m.now.usec) >= TickFloorUsec && m.now.state == Hit
    ensures Elapsed(t, m.now.usec) >= TickFloorUsec && m.now.state == Hit ==>
      var r := Tick(cfg, m, t, sample);
      var v := HitVelocity(cfg.hit, cfg.nSteps, m.rising.pressure);
      r.machine.now.state == HitHold && v < cfg.nSteps &&
      r.machine.hit.velocity == v && r.machine.hit.usec == t &&
      r.events == SendPressure(cfg, Measured(cfg, m, t, sample), t).events + [HandleHit(v)]
  {
  }

  /** No confirmed pressure event is emitted by a tick that starts before the
      hit of its cycle (Idle, Rising or Hit); `ConfirmedPressureAfterHit`
      carries this over to whole runs. */
  lemma NoConfirmedPressureBeforeHit(cfg: Config, m: Machine, t: U32, sample: real)
    requires ValidConfig(cfg) && Inv(cfg, m) && BeforeHit(m.now.state)
    ensures forall e | e in Tick(cfg, m, t, sample).events :: !e.HandlePressure?
  {
  }

  /** Every emitted non-zero step produces a raw pressure event; the confirmed
      event for it is emitted exactly when confirmed pressure is enabled. */
  lemma RawPressureForEveryStep(cfg: Config, m: Machine, t: U32, sample: real)
    requires ValidConfig(cfg) && Inv(cfg, m)
    requires Elapsed(t, m.now.usec) >= TickFloorUsec
    requires var r := Measured(cfg, m, t, sample); Emits(r, t) && r.now.step != 0
    ensures var r := Measured(cfg, m, t, sample);
      var events := Tick(cfg, m, t, sample).events;
      HandlePressureRaw(r.now.fraction, r.now.step) in events &&
      (HandlePressure(r.now.fraction, r.now.step) in events <==> m.pressure.enabled)
  {
    var r := Measured(cfg, m, t, sample);
    var sent := SendPressure(cfg, r, t);
    var advanced := Advance(cfg, sent.machine, t);
    assert Tick(cfg, m, t, sample).events == sent.events + advanced.events;
    assert HandlePressure(r.now.fraction, r.now.step) !in advanced.events;
  }

  /** HitHold, once the hold time has passed, restarts the fall timer at
      every tick whose step is at least the step the fall was timed from; a
      lower step keeps the fall's step, and its time unless this is the first
      HitHold tick, which starts the hold and fall timers. A step of 0 then
      moves on to HitRelease. The hold is timed from `_hit.holdUsec`, or from
      this tick on the first one. */
  lemma FallTimerRestarts(cfg: Config, m: Machine, t: U32, sample: real)
    requires ValidConfig(cfg) && Inv(cfg, m)
    requires Elapsed(t, m.now.usec) >= TickFloorUsec && m.now.state == HitHold
    requires var hold := if m.hit.holdUsec == 0 then t else m.hit.holdUsec;
      Elapsed(t, hold) >= cfg.hit.holdUsec
    ensures var step := Measured(cfg, m, t, sample).now.step;
      var r := Tick(cfg, m, t, sample).machine;
      var hold := if m.hit.holdUsec == 0 then t else m.hit.holdUsec;
      r.hit.holdUsec == hold &&
      (step >= m.falling.step ==> r.falling.usec == t && r.falling.step == step) &&
      (step < m.falling.step ==>
        r.falling.step == m.falling.step &&
        r.falling.usec == (if m.hit.holdUsec == 0 then t else m.falling.usec)) &&
      (step == 0 <==> r.now.state == HitRelease) &&
      (step == 0 || Elapsed(t, hold) > cfg.hit.pressureDelayUsec ==> r.pressure.enabled)
  {
  }

  /** A release is emitted only by a tick that starts in HitRelease, with the
      release velocity of the time since the fall began, and moves to Release. */
  lemma ReleaseOnlyFromHitRelease(cfg: Config, m: Machine, t: U32, sample: real)
    requires ValidConfig(cfg) && Inv(cfg, m)
    ensures var r := Tick(cfg, m, t, sample);
      (exists e :: e in r.events && e.HandleRelease?) ==>
        Elapsed(t, m.now.usec) >= TickFloorUsec && m.now.state == HitRelease
    ensures Elapsed(t, m.now.usec) >= TickFloorUsec && m.now.state == HitRelease ==>
      var r := Tick(cfg, m, t, sample);
      var v := ReleaseVelocity(cfg.release, Elapsed(t, m.falling.usec));
      r.machine.now.state == Release && 1 <= v <= 127 && r.machine.falling.velocity == v &&
      r.machine.hit.releaseUsec == t && HandleRelease(v) in r.events
  {
    if Elapsed(t, m.now.usec) >= TickFloorUsec {
      var sent := SendPressure(cfg, Measured(cfg, m, t, sample), t);
      var advanced := Advance(cfg, sent.machine, t);
      assert Tick(cfg, m, t, sample).events == sent.events + advanced.events;
      assert forall e | e in sent.events :: !e.HandleRelease?;
      assert sent.machine.now.state == m.now.state;
    }
  }

  /** Release returns to Idle exactly when the measured fraction is 0 and
      `releaseUsec` has passed since the release. That tick emits nothing but
      the owed terminal zeros (a confirmed one exactly when a confirmed
      pressure event was sent, a raw one exactly when a raw one was), and
      clears `_now`, `_rising`, `_hit` and `_pressure`; `_falling` carries
      over to the next cycle. */
  lemma ReleaseToIdle(cfg: Config, m: Machine, t: U32, sample: real)
    requires ValidConfig(cfg) && Inv(cfg, m)
    requires Elapsed(t, m.now.usec) >= TickFloorUsec && m.now.state == Release
    ensures var f := Measured(cfg, m, t, sample).now.fraction;
      var r := Tick(cfg, m, t, sample);
      (r.machine.now.state == Idle <==> f == 0.0 && Elapsed(t, m.hit.releaseUsec) >= cfg.hit.releaseUsec) &&
      (r.machine.now.state == Idle ==>
        r.events == TerminalZeros(m.pressure) &&
        r.machine.now == NowZero && r.machine.rising == RisingZero &&
        r.machine.hit == HitZero && r.machine.pressure == PressureZero &&
        r.machine.falling == m.falling)
  {
    var measured := Measured(cfg, m, t, sample);
    var f := measured.now.fraction;
    if f == 0.0 {
      MeasureRails(cfg, m.(now := m.now.(usec := t)), sample);
      var analog := measured.history.analog;
      if cfg.pressure.min <= analog <= cfg.pressure.max {
        MeasureHysteresis(cfg, m.(now := m.now.(usec := t)), sample);
        assert measured.now.step == 0 || measured.now.step == m.pressure.step;
      }
      assert !Emits(measured, t) || measured.now.step == 0;
    }
  }

  /** The return to Idle zeroes `_now.usec` and `_pressure.usec`, so the next
      pass measures both of its limits from clock reading 0, not from the
      pass that returned to Idle: any later reading of at least 500 is
      processed, however soon it comes, and from reading 20000 on any
      non-zero step it measures is recorded at once. */
  lemma TimersRestartAtIdle(cfg: Config, m: Machine, t: U32, sample: real, t2: U32, sample2: real)
    requires ValidConfig(cfg) && Inv(cfg, m)
    requires Elapsed(t, m.now.usec) >= TickFloorUsec && m.now.state == Release
    requires Tick(cfg, m, t, sample).machine.now.state == Idle
    requires TickFloorUsec <= t2
    ensures var r := Tick(cfg, m, t, sample).machine;
      var measured := Measured(cfg, r, t2, sample2);
      r.now.usec == 0 && r.pressure.usec == 0 &&
      Tick(cfg, r, t2, sample2).machine.now.usec == t2 &&
      (Emits(measured, t2) <==> measured.now.step != 0 && PressureIntervalUsec <= t2)
  {
    ReleaseToIdle(cfg, m, t, sample);
  }

  // ---------------------------------------------------------------------------
  // The event log

  /** Each tick emits only events its state allows after what the state owes,
      and leaves owing exactly what the new state records. */
  lemma TickKeepsObligations(cfg: Config, m: Machine, t: U32, sample: real)
    requires ValidConfig(cfg) && Inv(cfg, m)
    ensures var r := Tick(cfg, m, t, sample);
      AllowedAll(Owed(m), r.events) && After(Owed(m), r.events) == Owed(r.machine)
  {
    if Elapsed(t, m.now.usec) >= TickFloorUsec {
      var measured := Measured(cfg, m, t, sample);
      var sent := SendPressure(cfg, measured, t);
      var advanced := Advance(cfg, sent.machine, t);
      SendPressureKeepsObligations(cfg, measured, t);
      AdvanceKeepsObligations(cfg, sent.machine, t);
      AfterConcat(Owed(m), sent.events, advanced.events);
    }
  }

  lemma SendPressureKeepsObligations(cfg: Config, m: Machine, t: U32)
    ensures var r := SendPressure(cfg, m, t);
      AllowedAll(Owed(m), r.events) && After(Owed(m), r.events) == Owed(r.machine)
  {
    var r := SendPressure(cfg, m, t);
    if Emits(m, t) && m.now.step != 0 {
      var f, s := m.now.fraction, m.now.step;
      var raw := [HandlePressureRaw(f, s)];
      if m.pressure.enabled {
        AfterConcat(Owed(m), [HandlePressure(f, s)], raw);
      } else {
        assert r.events == raw;
      }
    }
  }

  lemma AdvanceKeepsObligations(cfg: Config, m: Machine, t: U32)
    requires ValidConfig(cfg)
    requires m.now.state == Hit ==> m.rising.pressure > cfg.hit.min
    ensures var r := Advance(cfg, m, t);
      AllowedAll(Owed(m), r.events) && After(Owed(m), r.events) == Owed(r.machine)
  {
    if m.now.state == Release {
      TerminalZerosSettle(m);
    }
  }

  /** The terminal zeros are allowed after what a Release state owes, and
      leave nothing owed. */
  lemma TerminalZerosSettle(m: Machine)
    requires m.now.state == Release
    ensures var zs := TerminalZeros(m.pressure);
      AllowedAll(Owed(m), zs) && After(Owed(m), zs) == NoObligations
  {
    var confirmed := if m.pressure.sent then [HandlePressure(0.0, 0)] else [];
    var raw := if m.pressure.rawSent then [HandlePressureRaw(0.0, 0)] else [];
    AfterConcat(Owed(m), confirmed, raw);
  }

  /** The inputs of a run of ticks: the clock reading and the measurement. */
  datatype Sample = Sample(usec: U32, value: real)

  /** One `loop()` pass on a sample takes `m` to `m'` and emits `events`. */
  ghost predicate TickStep(cfg: Config, m: Machine, x: Sample, m': Machine, events: seq<Event>)
    requires ValidConfig(cfg)
  {
    (m.now.state == Hit ==> m.rising.pressure > cfg.hit.min) &&
    Tick(cfg, m, x.usec, x.value) == Effect(m', events)
  }

  /** A run of `loop()` passes over `inputs`: the i-th pass takes `states[i]`
      to `states[i + 1]` and emits `batches[i]`. */
  ghost predicate IsRun(cfg: Config, inputs: seq<Sample>, states: seq<Machine>, batches: seq<seq<Event>>)
    requires ValidConfig(cfg)
    decreases |inputs|
  {
    var n := |inputs|;
    |states| == n + 1 && |batches| == n &&
    (n == 0 ||
     (IsRun(cfg, inputs[..n - 1], states[..n], batches[..n - 1]) &&
      TickStep(cfg, states[n - 1], inputs[n - 1], states[n], batches[n - 1])))
  }

  /** The events of a run, batch after batch. */
  function Concat(batches: seq<seq<Event>>): seq<Event>
    decreases |batches|
  {
    if batches == [] then [] else Concat(batches[..|batches| - 1]) + batches[|batches| - 1]
  }

  /** A run keeps the invariant and extends a well-formed log consistent with
      its first state into a well-formed log consistent with its last. */
  lemma {:induction false} RunKeepsLog(
    cfg: Config, inputs: seq<Sample>, states: seq<Machine>, batches: seq<seq<Event>>, log: seq<Event>)
    requires ValidConfig(cfg) && IsRun(cfg, inputs, states, batches)
    requires Inv(cfg, states[0]) && WellFormed(log) && Summary(log) == Owed(states[0])
    ensures var last := states[|inputs|];
      Inv(cfg, last) && WellFormed(log + Concat(batches)) && Summary(log + Concat(batches)) == Owed(last)
    decreases |inputs|
  {
    var n := |inputs|;
    if n == 0 {
      assert log + Concat(batches) == log;
    } else {
      var before := batches[..n - 1];
      RunKeepsLog(cfg, inputs[..n - 1], states[..n], before, log);
      assert states[..n][n - 1] == states[n - 1];
      var mid := log + Concat(before);
      ConcatLast(log, batches);
      StepKeepsLog(cfg, states[n - 1], inputs[n - 1], states[n], batches[n - 1], mid);
    }
  }

  /** Appending the events of a run to a log, batch after batch. */
  lemma ConcatLast(log: seq<Event>, batches: seq<seq<Event>>)
    requires batches != []
    ensures var n := |batches|; log + Concat(batches) == (log + Concat(batches[..n - 1])) + batches[n - 1]
  {
    var n := |batches|;
    assert Concat(batches) == Concat(batches[..n - 1]) + batches[n - 1];
    AppendTwice(log, Concat(batches[..n - 1]), batches[n - 1]);
  }

  /** One pass keeps the invariant and extends a well-formed log consistent
      with the state into one consistent with the new state. */
  lemma StepKeepsLog(cfg: Config, m: Machine, x: Sample, m': Machine, events: seq<Event>, log: seq<Event>)
    requires ValidConfig(cfg) && TickStep(cfg, m, x, m', events)
    requires Inv(cfg, m) && WellFormed(log) && Summary(log) == Owed(m)
    ensures Inv(cfg, m') && WellFormed(log + events) && Summary(log + events) == Owed(m')
  {
    TickKeepsInv(cfg, m, x.usec, x.value);
    TickKeepsObligations(cfg, m, x.usec, x.value);
    Extend(log, events);
  }

  /** From the reset state, every run emits a well-formed log: hits and
      releases alternate starting with a hit, so every release answers
      exactly one hit, and every terminal zero answers a non-zero pressure
      event of its kind; at the end the state owes exactly what the log does. */
  lemma RunFromReset(cfg: Config, inputs: seq<Sample>, states: seq<Machine>, batches: seq<seq<Event>>)
    requires ValidConfig(cfg) && IsRun(cfg, inputs, states, batches) && states[0] == ResetMachine
    ensures WellFormed(Concat(batches)) && Summary(Concat(batches)) == Owed(states[|inputs|])
  {
    RunKeepsLog(cfg, inputs, states, batches, []);
    assert [] + Concat(batches) == Concat(batches);
  }

  // ---------------------------------------------------------------------------
  // Order within a cycle

  /** The k-th pass of a run is one `loop()` pass from `states[k]`. */
  lemma {:induction false} RunStep(
    cfg: Config, inputs: seq<Sample>, states: seq<Machine>, batches: seq<seq<Event>>, k: nat)
    requires ValidConfig(cfg) && IsRun(cfg, inputs, states, batches) && k < |inputs|
    ensures TickStep(cfg, states[k], inputs[k], states[k + 1], batches[k])
    decreases |inputs|
  {
    var n := |inputs|;
    if k < n - 1 {
      RunStep(cfg, inputs[..n - 1], states[..n], batches[..n - 1], k);
      assert states[..n][k] == states[k] && states[..n][k + 1] == states[k + 1];
    }
  }

  /** Every state of a run that starts in the invariant keeps it. */
  lemma {:induction false} RunInv(
    cfg: Config, inputs: seq<Sample>, states: seq<Machine>, batches: seq<seq<Event>>, k: nat)
    requires ValidConfig(cfg) && IsRun(cfg, inputs, states, batches)
    requires Inv(cfg, states[0]) && k <= |inputs|
    ensures Inv(cfg, states[k])
    decreases k
  {
    if k > 0 {
      RunInv(cfg, inputs, states, batches, k - 1);
      RunStep(cfg, inputs, states, batches, k - 1);
      TickKeepsInv(cfg, states[k - 1], inputs[k - 1].usec, inputs[k - 1].value);
    }
  }

  /** Once a run is past the hit of its cycle (HitHold, HitRelease or
      Release) it stays past it until it returns to Idle. */
  lemma {:induction false} StaysPastHit(
    cfg: Config, inputs: seq<Sample>, states: seq<Machine>, batches: seq<seq<Event>>, i: nat, k: nat)
    requires ValidConfig(cfg) && IsRun(cfg, inputs, states, batches) && Inv(cfg, states[0])
    requires i <= k <= |inputs| && !BeforeHit(states[i].now.state)
    requires forall l | i < l <= k :: states[l].now.state != Idle
    ensures !BeforeHit(states[k].now.state)
    decreases k - i
  {
    if i < k {
      StaysPastHit(cfg, inputs, states, batches, i, k - 1);
      var m, x := states[k - 1], inputs[k - 1];
      RunStep(cfg, inputs, states, batches, k - 1);
      RunInv(cfg, inputs, states, batches, k - 1);
      if Elapsed(x.usec, m.now.usec) < TickFloorUsec {
        RateLimited(cfg, m, x.usec, x.value);
      } else {
        TickTransitions(cfg, m, x.usec, x.value);
      }
    }
  }

  /** Confirmed pressure comes after the hit of its cycle: when pass `i` of a
      run emits a confirmed pressure event and pass `j` (not earlier) emits a
      hit, the pad returned to Idle in between, so the two belong to
      different cycles. */
  lemma ConfirmedPressureAfterHit(
    cfg: Config, inputs: seq<Sample>, states: seq<Machine>, batches: seq<seq<Event>>, i: nat, j: nat)
    requires ValidConfig(cfg) && IsRun(cfg, inputs, states, batches) && Inv(cfg, states[0])
    requires i <= j < |inputs|
    requires exists e :: e in batches[i] && e.HandlePressure?
    requires exists e :: e in batches[j] && e.HandleHit?
    ensures exists k :: i < k <= j && states[k].now.state == Idle
  {
    RunStep(cfg, inputs, states, batches, i);
    RunInv(cfg, inputs, states, batches, i);
    if BeforeHit(states[i].now.state) {
      NoConfirmedPressureBeforeHit(cfg, states[i], inputs[i].usec, inputs[i].value);
      assert false;
    }
    RunStep(cfg, inputs, states, batches, j);
    RunInv(cfg, inputs, states, batches, j);
    HitOnlyFromHit(cfg, states[j], inputs[j].usec, inputs[j].value);
    if !exists k :: i < k <= j && states[k].now.state == Idle {
      StaysPastHit(cfg, inputs, states, batches, i, j);
      assert false;
    }
  }
}
