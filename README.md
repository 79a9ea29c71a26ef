# brt_demo motion-sensing firmware: a Dafny model

This project models the logic of an ESP32 motion-sensing demo firmware, leaving its hardware setup aside:

- **Movement tracker** (`src/movement.rs`, module `MovementTracker`). The class `Movement` holds an optional window of (first movement, last movement) timestamps. `register_move` opens the window. `is_10s_movement` tests whether the window's span exceeds 10 s (strictly). It drops a window that has been open strictly more than 20 s without becoming sustained. Both clock readings (`Instant::now()`) become a `now` parameter, counted in microseconds.
- **LED sequencer** (`src/led.rs`, module `LedSequencer`). The class `Led` has `u8` counters. `tick` either advances the clock divider or, when the divider wraps, performs one more toggle. Once all toggles are done, every wrap reports that the cycle has ended. The specification function `Step` gives one tick on values, and `Run` and `EndsOn` give a run of ticks. The lemmas give the exact tick on which the cycle ends.
- **Firmware state** (`src/bin/main.rs`, module `Firmware`). This covers the moving/still counter `Movement` and its majority test, and the `State` enum. It also covers the globals `HALL_INT` and `STATE` (class `Statics`) and the update made by the hall-sensor interrupt handler.

The tracker follows the code, which differs from its own comment. `MovementInner` derives `Copy`. So `if let Some(mut movement) = self.movement` binds a copy, and the write to `ts_last_movement` lands in that copy. An open window therefore keeps `first == last` forever, and `is_10s_movement` can never return true (`NeverSustained`). The class `MovementTracker.Movement` reproduces this. The intended update, `AfterRegisterIntended`, is defined and proved beside it (see Findings).

Further facts about the code that shape the model:
- The comment at src/movement.rs:34 says `is_10s_movement` returns true when 10 s of movement are detected. Because of the lost write, the code never does (see Findings).
- `State` (src/bin/main.rs:227-232) has four variants: `Sleeping`, `Movement`, `Movement10sIndication` and `HallSensorStateChangeIndication`. Only `gpio_hall_sensor_handler` writes `STATE`.
- Nothing in the source drives the tracker or the LED sequencer, so no coordinator is modelled.
- With 2 blinks and divider 4, the first `true` from `tick` comes on tick 25, that is (4 + 1) · (4 + 1) (`TwoBlinksDividerFour`).

## Model

| member | source | states |
|---|---|---|
| `MovementTracker.AfterRegister` | src/movement.rs:23-32 | an empty tracker opens the window (now, now); an open window is left exactly as it was, because the update is made on a copy; validity and collapsed windows are preserved |
| `MovementTracker.Evaluate` | src/movement.rs:35-48 | the verdict is true iff a window exists and last − first > 10 s; the window is cleared iff it exists, is not sustained and now − first > 20 s; otherwise it is unchanged |
| `MovementTracker.CollapsedNeverSustained` | src/movement.rs:37-39 | a window with first == last is never sustained and stays collapsed through an evaluation |
| `MovementTracker.Movement.constructor` | src/movement.rs:18-20 | a new tracker has no window |
| `MovementTracker.Movement.RegisterMove` | src/movement.rs:23-32 | on an empty tracker the window becomes (now, now); an open window is unchanged; the window stays valid |
| `MovementTracker.Movement.Is10sMovement` | src/movement.rs:35-48 | result and new window are those of `Evaluate` on the old window; a collapsed window gives false and stays collapsed |
| `MovementTracker.Apply` | src/movement.rs:23-48 | one call keeps the window valid and anchored at or before the call's clock reading; only `is_10s_movement` yields a verdict |
| `MovementTracker.Replay` | src/movement.rs:23-48 | any monotonic sequence of calls keeps the window valid |
| `MovementTracker.NeverSustained` | src/movement.rs:7-8 | from a collapsed window, every sequence of calls keeps the window collapsed and no `is_10s_movement` returns true |
| `MovementTracker.NeverSustainedFromNew` | src/movement.rs:18-48 | from `Movement::new`, no sequence of calls ever makes `is_10s_movement` return true |
| `MovementTracker.AfterRegisterIntended` | src/movement.rs:26-28 | the intended update: the window's last movement becomes `now`, its first is kept (or is `now` for a new window), and it stays valid |
| `MovementTracker.IntendedSustained` | src/movement.rs:34-39 | with the intended update, a movement at t makes evaluation true iff a window was open and t − first > 10 s |
| `MovementTracker.AsWrittenMissesSustained` | src/movement.rs:26-27 | movements at 0 s and 10.000001 s: the intended update reports sustained movement, the code as written does not |
| `MovementTracker.StaleWindowDropped` | src/movement.rs:41-44 | a single movement evaluated more than 20 s later gives false and clears the window; the next movement opens a fresh window (t, t) |
| `LedSequencer.Step` | src/led.rs:26-40 | below the divider, the divider counter advances and nothing ends; at the divider, it wraps to 0 and the toggle count advances if toggles remain; the result is true iff the divider wrapped with all toggles done; the bounds toggle ≤ nbr_toggles and cycle ≤ divider are preserved |
| `LedSequencer.RunAdditive` | src/led.rs:26-40 | a ticks followed by b ticks equal a + b ticks |
| `LedSequencer.RunFromZero` | src/led.rs:12-40 | from fresh counters, after q(d+1) + r ticks (r ≤ d) the toggle count is min(q, n) and the divider counter is r |
| `LedSequencer.EndsOnFromZero` | src/led.rs:24-40 | from fresh counters, tick q(d+1) + r + 1 returns true iff r == d and q ≥ n |
| `LedSequencer.FirstEnd` | src/led.rs:24-40 | from fresh counters, the first true is returned on tick (d+1)(n+1) and on no earlier tick |
| `LedSequencer.EndsRepeat` | src/led.rs:30-37 | after the first end, the toggle count stays at n, every (d+1)-th tick returns true and the ticks between return false |
| `LedSequencer.EndAfterReset` | src/led.rs:17-19 | after `reset` with the divider counter at c, the first true comes on tick (d+1)(n+1) − c and on no earlier tick |
| `LedSequencer.TwoBlinksDividerFour` | src/led.rs:12-40 | two blinks with divider 4 end first on tick 25 |
| `LedSequencer.Led.constructor` | src/led.rs:12-16 | nbr_toggles = 2 · nbr_blinks, divider as given, both counters 0; the object invariant holds |
| `LedSequencer.Led.Reset` | src/led.rs:17-19 | the toggle count becomes 0; the divider counter, divider and nbr_toggles are unchanged; the invariant is kept |
| `LedSequencer.Led.Tick` | src/led.rs:26-40 | result and new counters are those of `Step`; divider and nbr_toggles never change; the invariant is kept |
| `Firmware.Movement.constructor` | src/bin/main.rs:145-150 | both counts are 0, so the counter is not moving |
| `Firmware.Movement.AddMove` | src/bin/main.rs:151-153 | moving grows by one and still is unchanged |
| `Firmware.Movement.AddStill` | src/bin/main.rs:154-156 | still grows by one and moving is unchanged |
| `Firmware.Movement.IsMoving` | src/bin/main.rs:157-159 | true iff moving > still (the `moving > 0` conjunct is implied) |
| `Firmware.Tally` | src/bin/main.rs:145-156 | the counts reached from `new` by one call per sample are the number of moving and of still samples, and sum to the number of samples |
| `Firmware.CountSamples` | src/bin/main.rs:145-159 | a counter built by `new` and fed one `add_move` per moving sample and one `add_still` per still sample holds the counts `Tally` gives, and `is_moving` then holds iff more than half of the samples saw movement |
| `Firmware.MajorityVote` | src/bin/main.rs:157-159 | after any run of samples, `is_moving` holds iff more than half of them saw movement |
| `Firmware.HallSensorUpdate` | src/bin/main.rs:197-208 | with no hall input nothing changes; otherwise the input's interrupt is cleared and the state becomes `HallSensorStateChangeIndication` |
| `Firmware.HallSensorUpdateIdempotent` | src/bin/main.rs:197-208 | handling a second hall interrupt right after a first changes nothing further |
| `Firmware.Statics.constructor` | src/bin/main.rs:27-29 | at boot there is no hall input and the state is `Sleeping` |
| `Firmware.Statics.GpioHallSensorHandler` | src/bin/main.rs:197-208 | the globals after the handler are those of `HallSensorUpdate`; without a hall input they are unchanged |

## Left out

- Peripheral setup in `main` (src/bin/main.rs:33-137) is hardware I/O and is not modelled. This covers interrupt-handler registration, I2C, the periodic timer, GPIO configuration, light sleep and wake sources, reset and wake reasons, and the busy-wait loop with its printing.
- `accel_init` (src/bin/main.rs:211-225) configures the accelerometer through a foreign driver over I2C and is not modelled.
- `gpio_handler` and `rtc_handler` (src/bin/main.rs:163-194) only clear hardware interrupt flags and print, so they are not modelled. The globals `ACCEL_INT` and `RWDT` they use are left out with them.
- The `critical_section::Mutex<RefCell<…>>` wrappers are modelled as plain fields of `Statics` accessed by one thread. Interrupt preemption is not modelled.
- `main` registers only `gpio_handler` and `rtc_handler` as interrupt handlers (src/bin/main.rs:38, 51), so in the firmware as shipped `gpio_hall_sensor_handler` is never called. `main` also never stores a hall input in `HALL_INT`, so even if it were called it would return at once. The model keeps the `Option` so that both paths are stated.
- Clock reads (`Instant::now()`) are a `now` parameter. A monotonic clock is assumed, so the clock never reads earlier than the open window's first movement.
- `MovementTracker.Evaluate`: requires now ≥ first, the monotonic clock. It does not model what `Instant` subtraction does when the clock runs backwards.
- `MovementTracker.Movement.Is10sMovement`: requires now ≥ first, for the same reason as `Evaluate`.
- `LedSequencer.Led.constructor`: requires nbr_blinks ≤ 127. It does not model the overflow of `nbr_blinks * 2` in `u8` (a panic in debug builds, a wrap-around in release builds).
- `Firmware.Movement.AddMove`: requires moving < 2^32 − 1. It does not model the overflow of the `u32` counter.
- `Firmware.Movement.AddStill`: requires still < 2^32 − 1, for the same reason as `AddMove`.
- src/led.rs drives no pin: its fields are private, nothing reads `current_toggle`, and no code in the source calls `Led`.
- No coordinator is modelled that moves between `Sleeping`, `Movement` and `Movement10sIndication`, or that feeds the tracker and the sequencer, because the source has none.

## Findings

| source | as written | input that shows it | evidently intended | confidence | as-written member | corrected member |
|---|---|---|---|---|---|---|
| src/movement.rs:26-27 | `if let Some(mut movement) = self.movement` copies the `Copy` struct `MovementInner`, so `ts_last_movement` is written into the copy and the stored window keeps first == last | `register_move` at 0 s and at 10.000001 s, then `is_10s_movement` at 10.000001 s returns false | the stored window's last movement becomes `now`, so that 10 s of movement is reported | high (not executed) | `MovementTracker.NeverSustainedFromNew` | `MovementTracker.AfterRegisterIntended` |

The corrected member is proved in `IntendedSustained` and compared with the code in `AsWrittenMissesSustained`. The class `MovementTracker.Movement` keeps the firmware's behaviour, because the model describes the firmware as written.
