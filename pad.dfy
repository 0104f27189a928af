/** The pad object: the six state groups as fields updated in place, one
    `loop()` pass as `Tick`, and the callbacks it invokes recorded in a ghost
    event log. Each method is proved against its counterpart in `PadSpec`. */
module PadImpl {
  import opened Clock
  import opened Numeric
  import opened PadConfig
  import opened Velocity
  import opened PadSpec
  import opened EventLog
  import opened PadProperties

  class Pad {
    const cfg: Config

    var now: NowGroup
    var history: HistoryGroup
    var pressure: PressureGroup
    var rising: RisingGroup
    var hit: HitGroup
    var falling: FallingGroup

    /** The callbacks invoked since construction or the last `Reset`, in order. */
    ghost var events: seq<Event>

    /** The fields as one value of the specification's state. */
    ghost function Snapshot(): Machine
      reads this
    {
      Machine(now, history, pressure, rising, hit, falling)
    }

    /** A valid configuration, the state invariant, and a well-formed event
        log that owes exactly what the state records. */
    ghost predicate Valid()
      reads this
    {
      ValidConfig(cfg) && Inv(cfg, Snapshot()) &&
      WellFormed(events) && Summary(events) == Owed(Snapshot())
    }

    /** A pad in the reset state over a configuration whose ranges are not
        empty and which has between 1 and 256 steps. */
    constructor (config: Config)
      requires ValidConfig(config)
      ensures Valid() && cfg == config
      ensures Snapshot() == ResetMachine && events == []
    {
      cfg := config;
      now, history, pressure := NowZero, HistoryZero, PressureZero;
      rising, hit, falling := RisingZero, HitZero, FallingZero;
      events := [];
    }

    /** `reset()`: every group back to its zero value. No terminal zeros are
        emitted, so the event log starts afresh. */
    method Reset()
      requires ValidConfig(cfg)
      modifies this
      ensures Valid() && Snapshot() == ResetMachine && events == []
    {
      now := NowZero;
      history := HistoryZero;
      pressure := PressureZero;
      rising := RisingZero;
      hit := HitZero;
      falling := FallingZero;
      events := [];
    }

    /** `loop()` at clock reading `nowUsec`, measuring `measurement`: the pass
        `PadSpec.Tick` describes, which keeps the object valid; within 500
        microseconds of `_now.usec` nothing changes. */
    method Tick(nowUsec: U32, measurement: real)
      requires Valid()
      modifies this
      ensures Valid()
      ensures var r := PadSpec.Tick(cfg, old(Snapshot()), nowUsec, measurement);
        Snapshot() == r.machine && events == old(events) + r.events
      ensures Elapsed(nowUsec, old(now.usec)) < TickFloorUsec ==>
        Snapshot() == old(Snapshot()) && events == old(events)
    {
      ghost var m, log := Snapshot(), events;
      if Elapsed(nowUsec, now.usec) < TickFloorUsec {
        assert events == log + [];
        return;
      }
      now := now.(usec := nowUsec);
      Measure(measurement);
      ghost var sent := PadSpec.SendPressure(cfg, Snapshot(), nowUsec);
      SendPressure(nowUsec);
      ghost var advanced := PadSpec.Advance(cfg, Snapshot(), nowUsec);
      Advance(nowUsec);
      AppendTwice(log, sent.events, advanced.events);
      StepKeepsLog(cfg, m, Sample(nowUsec, measurement), Snapshot(), sent.events + advanced.events, log);
    }

    /** `measure()`: the filter, rails, curve and hysteresis of `PadSpec.Measure`. */
    method Measure(sample: real)
      requires ValidConfig(cfg)
      modifies this
      ensures Snapshot() == PadSpec.Measure(cfg, old(Snapshot()), sample)
      ensures events == old(events)
    {
      now := now.(analog := sample);
      history := history.(analog := history.analog * (1.0 - cfg.alpha));
      history := history.(analog := history.analog + now.analog * cfg.alpha);
      if history.analog < cfg.pressure.min {
        now := now.(fraction := 0.0, step := 0);
        history := history.(lag := 0.0 - cfg.lag);
      } else if history.analog > cfg.pressure.max {
        now := now.(fraction := 1.0, step := cfg.nSteps - 1);
        history := history.(lag := 1.0 + cfg.lag);
      } else {
        now := now.(fraction := Normalize(history.analog, cfg.pressure.min, cfg.pressure.max));
        now := now.(fraction := cfg.pressure.curve(now.fraction));
        if Distance(now.fraction, history.lag) >= cfg.lag {
          now := now.(step := Quantize(cfg, now.fraction));
        } else {
          now := now.(step := pressure.step);
        }
      }
    }

    /** `sendPressure()`: the rate-limited emission of `PadSpec.SendPressure`. */
    method SendPressure(t: U32)
      modifies this
      ensures var r := PadSpec.SendPressure(cfg, old(Snapshot()), t);
        Snapshot() == r.machine && events == old(events) + r.events
    {
      if pressure.step == now.step {
        assert events == old(events) + [];
        return;
      }
      if Elapsed(t, pressure.usec) < PressureIntervalUsec {
        assert events == old(events) + [];
        return;
      }
      if now.fraction - history.lag > 0.0 {
        history := history.(lag := now.fraction - cfg.lag);
      } else {
        history := history.(lag := now.fraction + cfg.lag);
      }
      pressure := pressure.(usec := t, fraction := now.fraction, step := now.step);
      if now.step == 0 {
        assert events == old(events) + [];
        return;
      }
      if pressure.enabled {
        pressure := pressure.(sent := true);
        events := events + [HandlePressure(now.fraction, now.step)];
      }
      pressure := pressure.(rawSent := true);
      events := events + [HandlePressureRaw(now.fraction, now.step)];
    }

    /** The state `switch` of `loop()`: the transitions of `PadSpec.Advance`. */
    method Advance(t: U32)
      requires ValidConfig(cfg)
      requires now.state == Hit ==> rising.pressure > cfg.hit.min
      modifies this
      ensures var r := PadSpec.Advance(cfg, old(Snapshot()), t);
        Snapshot() == r.machine && events == old(events) + r.events
    {
      match now.state
      case Idle =>
        if now.step != 0 {
          rising := rising.(usec := t);
          now := now.(state := Rising);
        }
        assert events == old(events) + [];
      case Rising =>
        assert events == old(events) + [];
        if now.step == 0 {
          now := now.(state := Release);
          return;
        }
        if now.fraction > rising.pressure {
          rising := rising.(pressure := now.fraction);
        }
        if Elapsed(t, rising.usec) < cfg.hit.risingUsec {
          return;
        }
        if rising.pressure <= cfg.hit.min {
          pressure := pressure.(enabled := true);
          now := now.(state := Release);
          return;
        }
        now := now.(state := Hit);
      case Hit =>
        var velocity := HitVelocity(cfg.hit, cfg.nSteps, rising.pressure);
        rising := rising.(pressure := ClampPeak(cfg.hit, rising.pressure));
        hit := hit.(velocity := velocity, usec := t);
        now := now.(state := HitHold);
        events := events + [HandleHit(hit.velocity)];
      case HitHold =>
        assert events == old(events) + [];
        if hit.holdUsec == 0 {
          hit := hit.(holdUsec := t);
          falling := falling.(usec := t);
        }
        if Elapsed(t, hit.holdUsec) < cfg.hit.holdUsec {
          return;
        }
        if now.step >= falling.step {
          falling := falling.(usec := t, step := now.step);
        }
        if now.step == 0 {
          pressure := pressure.(enabled := true);
          now := now.(state := HitRelease);
          return;
        }
        if Elapsed(t, hit.holdUsec) > cfg.hit.pressureDelayUsec {
          pressure := pressure.(enabled := true);
        }
      case HitRelease =>
        hit := hit.(releaseUsec := t);
        falling := falling.(velocity := ReleaseVelocity(cfg.release, Elapsed(hit.releaseUsec, falling.usec)));
        now := now.(state := Release);
        events := events + [HandleRelease(falling.velocity)];
      case Release =>
        assert events == old(events) + [];
        if now.fraction > 0.0 {
          return;
        }
        if Elapsed(t, hit.releaseUsec) < cfg.hit.releaseUsec {
          return;
        }
        ghost var owed := pressure;
        now := NowZero;
        rising := RisingZero;
        hit := HitZero;
        if pressure.sent {
          events := events + [HandlePressure(0.0, 0)];
        }
        if pressure.rawSent {
          events := events + [HandlePressureRaw(0.0, 0)];
        }
        pressure := PressureZero;
        assert events == old(events) + TerminalZeros(owed);
    }

    /** `getFraction()`: the fraction of the last recorded step (a step of 0
        is recorded without a callback), in [0, 1]. */
    function GetFraction(): (f: real)
      requires Valid()
      reads this
      ensures 0.0 <= f <= 1.0
      ensures f == Snapshot().pressure.fraction
    {
      pressure.fraction
    }

    /** `getStep()`: the last recorded step (a step of 0 is recorded without
        a callback), below `nSteps`. */
    function GetStep(): (s: nat)
      requires Valid()
      reads this
      ensures s < cfg.nSteps
      ensures s == Snapshot().pressure.step
    {
      pressure.step
    }
  }
}
