# Pressure pad: signal conditioning and hit/release state machine

This project models the pressure-pad component of the V2 MIDI firmware
library in Dafny. The component exists twice, line for line the same apart
from the clock:

- `V2FSR` (`src/V2FSR.h`) reads time from the Arduino `micros()` counter;
- `V2Drum` (`src/V2Drum.h`) reads time from `V2Base::getUsec()`.

Both are polled. Each call of `loop()` does four things:

1. It skips the pass when it comes less than 500 µs after `_now.usec`:
   the clock reading of the last processed pass, or 0 after a reset or a
   return to Idle.
2. `measure()` runs a single-pole low-pass filter over the measurement, pins
   it to the rails outside the pressure range, and normalises and curves it
   inside. It then quantises it to a step with a hysteresis band.
3. `sendPressure()` records a changed step only once 20 ms have passed
   since `_pressure.usec`: the time of the last recorded step, or 0 after a
   reset or a return to Idle. It also moves the hysteresis edge.
4. A `switch` over six states (Idle, Rising, Hit, HitHold, HitRelease,
   Release) detects a hit, scores its velocity from the peak of the rise,
   times the fall to score the release velocity, and returns to Idle. On the
   way back to Idle it sends the terminal zero pressure events it owes.

Both `_now.usec` and `_pressure.usec` are set to 0 by `reset()` (`src/V2FSR.h:64-71`) and by the
return to Idle (`src/V2FSR.h:184`, `src/V2FSR.h:193`). The first pass after
a return to Idle therefore measures both limits from clock reading 0, not
from the pass before it. For example, after a return to Idle at 1 000 000 µs
a pass at 1 000 100 µs is processed, and a non-zero step it measures is
recorded at once (`PadProperties.TimersRestartAtIdle`).

The model has these modules:

- **`Clock`** (`clock.dfy`): the 32-bit microsecond counter and the
  wrap-safe elapsed time `(now - since) mod 2^32`.
- **`Numeric`** (`numeric.dfy`): the float operations on exact reals:
  range normalisation, `roundf`, `ceilf`, and the truncating cast to
  `uint8_t`.
- **`PadConfig`** (`config.dfy`): the `Config` structure and the conditions
  under which it is usable.
- **`Velocity`** (`velocity.dfy`): the hit and release velocity formulas.
- **`PadSpec`** (`machine.dfy`):
  - the six state groups `_now`, `_history`, `_pressure`, `_rising`, `_hit`
    and `_falling` as datatypes;
  - `measure()`, `sendPressure()`, the state switch and one `loop()` pass
    as pure functions of the state. Each returns the new state and the
    callbacks it invoked, in order.
- **`EventLog`** (`eventlog.dfy`): the order the callbacks promise, as a
  grammar of event logs:
  - hits and releases alternate, starting with a hit;
  - a terminal zero pressure event only answers an earlier non-zero one.
- **`PadProperties`** (`properties.dfy`): what one pass and any run of
  passes guarantee.
- **`PadImpl`** (`pad.dfy`): the object itself. Class `Pad` has the six
  groups as fields, which `Tick`, `Measure`, `SendPressure` and `Advance`
  update in place exactly as the source does. The callbacks are appended to
  a ghost event log. Each method is proved equal to its `PadSpec`
  counterpart. `Tick` also keeps the object invariant, which includes a
  well-formed event log.

Three inputs become explicit:

- The clock reading of a pass becomes the parameter `nowUsec`. The source
  reads the clock several times within one `loop()`; all of those reads are
  this one value.
- The measurement (`handleMeasurement()`) becomes the parameter
  `measurement`.
- The four notification callbacks (`handlePressureRaw`, `handlePressure`,
  `handleHit`, `handleRelease`) become `Event` values appended to the log.

One might expect a completed cycle to return to the `reset()` state, and
the hysteresis band to hold back small moves in either direction. The code
does neither, and the model follows the code:

- Release → Idle clears only `_now`, `_rising`, `_hit` and `_pressure`
  (`src/V2FSR.h:184-193`). The filter memory and hysteresis edge
  (`_history`) and the fall record (`_falling`) carry over to the next
  cycle, so a completed cycle does not return to the `reset()` state
  (`PadProperties.ReleaseToIdle`).
- After an emission the hysteresis edge sits `lag` behind the new fraction,
  on the side it came from (`src/V2FSR.h:333-339`). A further move in the
  same direction is therefore followed at once, however small. Only a
  reversal smaller than twice `lag` keeps the old step
  (`PadProperties.HysteresisFollowsDirection`).

## Model

| member | source | states |
|---|---|---|
| Clock.Elapsed | src/V2Drum.h:75 | The wrap-safe difference of two 32-bit readings: `now - since` when `since <= now`, otherwise the distance across the wrap, `2^32 - since + now` |
| Clock.ElapsedAfterLater | src/V2FSR.h:76 | A reading taken `d < 2^32` microseconds after `since`, even across the wrap of the counter, is `d` microseconds after it by `Elapsed` |
| Numeric.Normalize | src/V2FSR.h:312 | The position of `x` in [lo, hi]: within [0, 1] for `x` in the range, 0 at `lo`, 1 at `hi` |
| Numeric.NormalizeMonotone | src/V2FSR.h:122 | Normalisation keeps the order of its arguments |
| Numeric.Ceil | src/V2FSR.h:127 | `ceilf`: the least integer not below `x` |
| Numeric.CeilMonotone | src/V2FSR.h:127 | `ceilf` keeps order, so a larger scaled fraction never scores a lower velocity |
| Numeric.Round | src/V2FSR.h:319 | `roundf` on a non-negative value: an integer within one half of `x`, halves rounded up |
| Numeric.Trunc | src/V2FSR.h:170 | The float to `uint8_t` conversion of a non-negative value: the integer part |
| Velocity.ClampPeak | src/V2FSR.h:119-120 | The peak limited to `hit.max`: never above `hit.max` or the peak, and one of the two |
| Velocity.HitVelocity | src/V2FSR.h:119-127 | The hit velocity never exceeds `nSteps - 1` |
| Velocity.HitVelocitySaturates | src/V2FSR.h:119-127 | A peak at or above `hit.max` scores exactly `nSteps - 1` |
| Velocity.HitVelocityMonotone | src/V2Drum.h:118-126 | A higher peak never scores a lower hit velocity |
| Velocity.ClampDuration | src/V2FSR.h:162-166 | The fall duration limited to [release.minUsec, release.maxUsec], and unchanged inside that range |
| Velocity.ReleaseVelocity | src/V2FSR.h:162-170 | The release velocity lies in [1, 127]; a fall no longer than `release.minUsec` scores 127 and one no shorter than `release.maxUsec` scores 1 |
| Velocity.ReleaseVelocityNonIncreasing | src/V2Drum.h:161-169 | A longer fall never scores a higher release velocity |
| Velocity.HitVelocityExample | src/V2FSR.h:122-127 | With 128 steps over [0.1, 0.9] and exponent 1, a peak of 0.5 scores 64 |
| Velocity.ReleaseVelocityExamples | src/V2FSR.h:162-170 | Over [5000, 50000] µs a fall of 27500 µs scores 64 and one of 3000 µs scores 127 |
| PadSpec.Quantize | src/V2FSR.h:319 | The step of a fraction in [0, 1] is below `nSteps`; fraction 0 gives step 0 and fraction 1 gives step `nSteps - 1` |
| PadSpec.Distance | src/V2FSR.h:318 | `fabs(a - b)`: non-negative, and one of `a - b` and `b - a` |
| PadSpec.TerminalZeros | src/V2FSR.h:188-192 | The terminal events of a cycle: a zero confirmed pressure event exactly when a confirmed one was sent, a zero raw one exactly when a raw one was, and nothing else |
| PadSpec.LowPass | src/V2FSR.h:296-298 | The filter memory after a sample, `memory * (1 - alpha) + sample * alpha`. Its body is the definition; PadProperties.MeasureRails states that `measure()` stores it |
| PadSpec.Measure | src/V2FSR.h:293-324 | `measure()` as a function of the state; its body is the definition. Its properties are in PadProperties.MeasureRails, PadProperties.MeasureHysteresis, PadProperties.HysteresisFollowsDirection and PadProperties.MeasureKeepsInv |
| PadSpec.Emits | src/V2FSR.h:327-331 | Whether `sendPressure()` records a step: the step changed and 20 ms have passed since `_pressure.usec`. Its body is the definition; PadProperties.SendPressureRules and PadProperties.TimersRestartAtIdle use it |
| PadSpec.SendPressure | src/V2FSR.h:326-356 | `sendPressure()` as a function of the state; its body is the definition. Its properties are in PadProperties.SendPressureRules, PadProperties.SendPressureFrame, PadProperties.SendPressureKeepsInv and PadProperties.SendPressureKeepsObligations |
| PadSpec.Advance | src/V2FSR.h:84-196 | The state switch as a function of the state; its body is the definition. Its properties are in PadProperties.AdvanceKeepsInv, PadProperties.AdvanceKeepsObligations and the per-state lemmas from PadProperties.RisingDropAborts to PadProperties.ReleaseToIdle |
| PadSpec.Measured | src/V2FSR.h:79-81 | A processed pass stamps `_now.usec` with the clock reading and runs `measure()`. Its body is the definition |
| PadSpec.Tick | src/V2FSR.h:75-197 | One `loop()` pass as a function of the state; its body is the definition. Its properties are in PadProperties.RateLimited, PadProperties.TickKeepsInv, PadProperties.TickTransitions, PadProperties.TickKeepsObligations and PadProperties.RunKeepsLog, and PadImpl.Pad.Tick is proved equal to it |
| PadProperties.MeasureRails | src/V2FSR.h:293-309 | `measure()` stores the filtered sample and keeps the step below `nSteps` and the fraction in [0, 1]. Below `pressure.min` it gives fraction and step 0 with the edge at `-lag`; above `pressure.max` it gives fraction 1 and step `nSteps - 1` with the edge at `1 + lag` |
| PadProperties.MeasureHysteresis | src/V2FSR.h:310-323 | Inside the pressure range the fraction is the curved, normalised filter output. The step is recomputed from it exactly when it lies at least `lag` from the edge, and is the last recorded step otherwise. The edge does not move |
| PadProperties.InsideBandEmitsNothing | src/V2FSR.h:317-328 | A fraction within `lag` of the edge leaves the step at the last recorded one, so `sendPressure()` changes nothing and emits nothing |
| PadProperties.HysteresisFollowsDirection | src/V2FSR.h:333-339 | After an emission on a rise (edge `lag` below), any further rise recomputes the step and a fall of less than `2 lag` keeps it. After an emission on a fall it is the other way round |
| PadProperties.SendPressureRules | src/V2FSR.h:326-356 | Nothing happens unless the step changed and 20 ms have passed since `_pressure.usec`. Otherwise the step, fraction and time are recorded and the edge ends `lag` from the fraction on the side it came from. Step 0 emits nothing; any other step emits a raw event, preceded by a confirmed one exactly when confirmed pressure is enabled |
| PadProperties.SendPressureFrame | src/V2Drum.h:325-355 | `sendPressure()` leaves the state, the rise, the hit, the fall and the enabled flag unchanged |
| PadProperties.RateLimited | src/V2FSR.h:76-77 | A pass less than 500 µs (wrap-safe) after `_now.usec` changes nothing and emits nothing |
| PadProperties.MeasureKeepsInv | src/V2Drum.h:292-323 | `measure()` keeps the state invariant: steps and velocities in range, fractions in [0, 1], a Hit peak above `hit.min`, confirmed pressure off before the hit |
| PadProperties.SendPressureKeepsInv | src/V2FSR.h:326-356 | `sendPressure()` keeps the state invariant |
| PadProperties.AdvanceKeepsInv | src/V2FSR.h:84-196 | The state switch keeps the state invariant |
| PadProperties.TickKeepsInv | src/V2FSR.h:75-197 | Every `loop()` pass keeps the state invariant |
| PadProperties.TickTransitions | src/V2Drum.h:83-195 | A processed pass stays or moves one state along Idle, Rising, Hit, HitHold, HitRelease, Release, Idle; Rising may also go straight to Release; Hit and HitRelease always move on |
| PadProperties.RisingDropAborts | src/V2FSR.h:93-97 | Rising with a measured step of 0 goes to Release with no hit, no confirmed pressure, and confirmed pressure left disabled |
| PadProperties.RisingTooShallow | src/V2FSR.h:104-112 | Rising whose peak is at most `hit.min` once `risingUsec` has elapsed goes to Release with no hit and with confirmed pressure enabled |
| PadProperties.RisingTracksPeak | src/V2FSR.h:99-115 | While Rising the peak is the largest fraction seen; before `risingUsec` the pad stays Rising, afterwards a peak above `hit.min` makes it Hit |
| PadProperties.HitOnlyFromHit | src/V2FSR.h:117-131 | A hit is emitted only by a processed pass in Hit. Such a pass emits the pressure events of `sendPressure()` then exactly one hit, with the hit velocity of the peak, records it and its time, and moves to HitHold |
| PadProperties.NoConfirmedPressureBeforeHit | src/V2FSR.h:349-352 | A pass starting in Idle, Rising or Hit emits no confirmed pressure event |
| PadProperties.RunStep | src/V2FSR.h:75-197 | Pass k of a run is one `loop()` pass from the k-th state, with the k-th clock reading and measurement |
| PadProperties.RunInv | src/V2FSR.h:75-197 | Every state of a run that starts in the invariant satisfies it |
| PadProperties.StaysPastHit | src/V2FSR.h:133-196 | A run that is past the hit of its cycle (HitHold, HitRelease or Release) stays past it until it returns to Idle, so it cannot reach Hit without passing through Idle |
| PadProperties.ConfirmedPressureAfterHit | src/V2FSR.h:215-216 | Over any run, a confirmed pressure event is never followed by a hit in the same cycle: if pass i emits confirmed pressure and pass j >= i emits a hit, some state strictly after pass i and up to pass j is Idle. So in a cycle with a hit, confirmed pressure comes after the hit |
| PadProperties.RawPressureForEveryStep | src/V2FSR.h:345-355 | Every emitted non-zero step produces a raw pressure event, and a confirmed one exactly when confirmed pressure is enabled |
| PadProperties.FallTimerRestarts | src/V2FSR.h:133-157 | In HitHold after the hold time, timed from `_hit.holdUsec` or, on the first HitHold pass, from that pass: a step at least the fall's step restarts the fall timer at that step; a lower one keeps the fall's step, and its time except on the first pass, which starts the fall timer. Step 0 moves to HitRelease, and it or a passed pressure delay enables confirmed pressure |
| PadProperties.ReleaseOnlyFromHitRelease | src/V2FSR.h:159-174 | A release is emitted only by a processed pass in HitRelease. It carries the release velocity of the time since the fall began, which lies in [1, 127], and the pad moves to Release |
| PadProperties.ReleaseToIdle | src/V2FSR.h:176-195 | Release returns to Idle exactly when the fraction is 0 and `releaseUsec` has passed. That pass emits exactly the owed terminal zeros, clears `_now`, `_rising`, `_hit` and `_pressure`, and keeps `_falling` |
| PadProperties.TimersRestartAtIdle | src/V2FSR.h:184-193 | The return to Idle sets `_now.usec` and `_pressure.usec` to 0. The next pass is processed at any reading of at least 500 µs, however soon after, and records any non-zero step it measures exactly when the reading is at least 20 ms |
| PadProperties.SendPressureKeepsObligations | src/V2FSR.h:345-355 | The events of `sendPressure()` are allowed after what the state owes, and leave owing what the new state records |
| PadProperties.AdvanceKeepsObligations | src/V2FSR.h:84-196 | The events of the state switch are allowed after what the state owes, and leave owing what the new state records |
| PadProperties.TerminalZerosSettle | src/V2FSR.h:188-193 | The terminal zeros a Release state sends are allowed after what it owes and leave nothing owed |
| PadProperties.TickKeepsObligations | src/V2FSR.h:75-197 | The events of a pass are allowed after what the state owes, and leave owing what the new state records |
| PadProperties.StepKeepsLog | src/V2FSR.h:75-197 | One pass extends a well-formed log that agrees with the state into one that agrees with the new state, and keeps the invariant |
| PadProperties.RunKeepsLog | src/V2Drum.h:74-196 | Any run of passes extends a well-formed log that agrees with the first state into one that agrees with the last, and keeps the invariant |
| PadProperties.RunFromReset | src/V2FSR.h:64-71 | From the reset state, every run of passes emits a well-formed log, owing at the end exactly what the last state records |
| EventLog.Extend | src/V2FSR.h:211-223 | Appending a batch to a log folds it over the log's obligations, and keeps the log well formed exactly when the batch is allowed after it |
| EventLog.AfterConcat | src/V2FSR.h:211-223 | Folding two batches in turn equals folding their concatenation, and so does checking them |
| EventLog.PrefixWellFormed | src/V2FSR.h:211-223 | Every prefix of a well-formed log is well formed, and the next event was allowed after it |
| EventLog.OpenHitIsLastHit | src/V2FSR.h:129-130 | An open hit is a hit event followed by neither a release nor another hit |
| EventLog.UnreleasedHitIsOpen | src/V2FSR.h:172-173 | A hit followed by no release leaves a hit open |
| EventLog.HitAfterRelease | src/V2Drum.h:128-129 | In a well-formed log there is a release between any two hits |
| EventLog.ReleaseAnswersOneHit | src/V2Drum.h:171-172 | In a well-formed log every release follows a hit with neither a release nor another hit in between |
| PadImpl.Pad.constructor | src/V2FSR.h:61 | A pad over a usable configuration starts in the reset state with an empty log, and is valid |
| PadImpl.Pad.Reset | src/V2Drum.h:63-70 | `reset()` zeroes all six groups and the log restarts |
| PadImpl.Pad.Tick | src/V2Drum.h:74-196 | `loop()` performs exactly the pass `PadSpec.Tick` describes, appends its callbacks to the log and keeps the pad valid. Within 500 µs of `_now.usec` nothing changes |
| PadImpl.Pad.Measure | src/V2Drum.h:292-323 | The in-place `measure()` produces exactly the state `PadSpec.Measure` describes and emits nothing |
| PadImpl.Pad.SendPressure | src/V2Drum.h:325-355 | The in-place `sendPressure()` produces exactly the state and events `PadSpec.SendPressure` describes |
| PadImpl.Pad.Advance | src/V2Drum.h:83-195 | The in-place state switch produces exactly the state and events `PadSpec.Advance` describes |
| PadImpl.Pad.GetFraction | src/V2Drum.h:199-201 | The fraction of the last recorded step (a step of 0 is recorded without a callback), which lies in [0, 1] |
| PadImpl.Pad.GetStep | src/V2Drum.h:203-205 | The last recorded step (a step of 0 is recorded without a callback), which is below `nSteps` |

## Left out

- Floating point is modelled on exact reals, including the IEEE rounding of
  the low-pass filter and the normalisations. The model states no
  float-exact results.
- `powf(x, exponent)`: the exponent correction curve is a function value in
  the configuration, required to map 0 to 0 and 1 to 1, to stay in [0, 1]
  and to be monotone on [0, 1]. Every `powf` with a positive exponent has
  these properties. A non-positive exponent is not modelled.
- `release.minUsec` and `release.maxUsec` are `float` in the source; the
  model takes them as whole microseconds.
- The clock is a 32-bit counter (`unsigned long` on the 32-bit target,
  `uint32_t` in `V2Drum`). The several clock reads within one `loop()` are
  one reading, so a counter that ticks during a pass is not modelled.
- `V2Base::getUsec` and `V2Base::getUsecSince` are not part of this model.
  `getUsecSince(t)` is taken to be the wrap-safe `getUsec() - t`.
- `handleMeasurement()` is replaced by the `measurement` parameter. The
  four `handle*` callbacks are replaced by the event log; what a subclass
  does in them is not modelled.
- `begin()` is a no-op and is not modelled.
- Configurations are not modelled when they have:
  - a zero-width range (`pressure.max == pressure.min`,
    `hit.max == hit.min`, `release.maxUsec == release.minUsec`), which
    divides by zero;
  - an inverted range (`max < min` in any of the three), a
    misconfiguration the model does not cover; the source then only
    produces the end values of the range;
  - more than 256 steps, because the `uint8_t` step of `_pressure` and the
    `uint8_t` velocities would truncate;
  - zero steps, which the `uint16_t` field allows: `nSteps - 1` would wrap
    to 65535 and become the top step (`src/V2FSR.h:307`).
- PadImpl.Pad.Reset: `reset()` sends no terminal zeros even when pressure
  events are owed. The event log therefore restarts at `reset()`, and the
  log-order guarantees hold between resets only.
- Convergence of the step to `nSteps - 1` under a measurement held above
  `pressure.max` is not stated. It depends on the filter constant `alpha`
  and on the limit of a geometric sequence.
- Concurrency: `loop()` is taken to be called serially, as the source
  assumes.
