# Black frame insertion flip scheduler

This project models the timing controller of rust-bfi, a black-frame-insertion
overlay. On every vertical blank the program's main loop decides whether to
flip a full-screen overlay between opaque (alpha 255) and transparent
(alpha 0). The dwell is asymmetric: one interval while transparent, three
intervals while opaque. On a flip, the last-flip timestamp is snapped
forward in whole steps until it is within one step of the current clock
reading. It is never re-based to "now", so the schedule stays on a grid
counted from the start time.

Time is a `nat` count of nanoseconds. The interval is the constant
`Schedule.INTERVAL = 4182350`: the value of `(1000 / 239.1) * 1_000_000`
truncated to an unsigned integer. The program runs on Windows only, where
Rust's `SystemTime` counts 100-ns units (`Schedule.CLOCK_UNIT`). Adding a
`Duration` to a `SystemTime`, or subtracting one, first converts it to whole
100-ns units and drops the remainder. So `last_flip += INTERVAL` and
`SystemTime::now() - INTERVAL` (src/bfi.rs:144-145) move by
`Schedule.STEP = 4182300` ns, while the elapsed-time tests (src/bfi.rs:138,
140) compare a `Duration` against the full 4182350 ns. The model keeps both
constants: `INTERVAL` in the dwell rule, `STEP` in the snap and the grid.

- `schedule.dfy`, module `Schedule`: the schedule as values. It holds the
  drift-correction step count `Steps`, one tick `Step`, and a run of ticks
  `Run`, with the lemmas about them.
- `bfi.dfy`, module `Bfi`: class `BfiController`. Its fields `lastFlip` and
  `transparent` are the two loop-carried variables of the vblank loop.
  `Tick` performs one iteration of the loop body, with the drift-correction
  `while` loop kept in place. `RunUntilQuit` is the outer loop that stops
  once the quit flag is seen. Both methods are proved against `Step` and
  `Run`. A ghost `start` together with `Valid()` keeps the phase-lock
  invariant. `ScenarioClient` replays the worked scenario through the
  constructor and `Tick`; its assertions follow from their contracts alone.
  It has no contract of its own, so it has no row below.

Each tick reads the clock once, as the parameter `now`. `Tick` requires
`lastFlip <= now`. This is the condition under which the source's
`duration_since(last_flip).unwrap()` does not panic. `Step`'s contract
re-establishes it for every later reading that is not before `now`. For a
run of ticks, `Schedule.CanRun` is the exact condition: no reading is before
the timestamp that the ticks before it leave. Monotone readings that start
no earlier than the last flip always meet it (`Schedule.MonotoneCanRun`).

Facts about the code that follow from this:

- Every flip takes at least one correction step, and afterwards the lag
  `now - lastFlip` is at most `STEP`, strictly less than one interval
  (`Schedule.Step`). A second tick at the same reading therefore never flips
  again (`Schedule.SameReadingFlipsOnce`).
- The snapped timestamps lie on a grid of `STEP`, not of `INTERVAL`, counted
  from the start time (`Schedule.RunPhaseLocked`).
- The opaque:transparent dwell ratio is not 3:1 for every tick spacing
  (`Schedule.TransparentPhaseCanBeShort`). Each dwell is measured from the
  snapped grid timestamp, not from the tick that flipped, so the transparent
  phase lasts `INTERVAL` minus the lag the flip left. When an opaque tick
  lands exactly on a grid point the lag is a full `STEP`, and with readings
  one clock unit (100 ns) apart the next reading already flips back.
- In the worked scenario (start opaque at 0; ticks at 4 ms, 13 ms, 17.5 ms)
  the timestamp snaps to 12546900 ns and then to 16729200 ns. The 17.5 ms
  tick is measured from 12546900 ns, not from the 13 ms tick that flipped;
  the outcome, a flip back to alpha 255, is the same either way
  (`Schedule.ScenarioTicks`).

## Model

| member | source | states |
|---|---|---|
| `Schedule.StepTruncatesInterval` | src/bfi.rs:126 | `STEP` is `INTERVAL` truncated to whole 100-ns clock units: at most `INTERVAL` and less than one clock unit below it |
| `Schedule.Steps` | src/bfi.rs:144-146 | after the drift-correction steps of `STEP` each the timestamp is at least `now - STEP`, and if any step was taken it is strictly before `now` |
| `Schedule.StepsUnique` | src/bfi.rs:144-146 | any step count that meets those two conditions equals the number of iterations the loop takes |
| `Schedule.OnGridAdvance` | src/bfi.rs:145 | advancing a timestamp on the grid of `STEP` by whole steps keeps it on the grid |
| `Schedule.Step` | src/bfi.rs:136-155 | a tick flips iff `now - lastFlip >= INTERVAL` when transparent, or `>= 3 * INTERVAL` when opaque; a non-flipping tick leaves the state unchanged and emits nothing; a flip toggles `transparent` exactly once and emits 0 when the new state is transparent and 255 when it is opaque, both within 0..=255; afterwards `lastFlip <= now` and `lastFlip` has not decreased; a flip moves `lastFlip` forward, to strictly before `now` and at least `now - STEP` |
| `Schedule.StepOnGrid` | src/bfi.rs:144-146 | a tick moves the last-flip timestamp by whole steps, so a timestamp on the grid counted from the start time stays on it |
| `Schedule.Run` | src/bfi.rs:133-161 | over readings that never make the `unwrap` panic, the last-flip timestamp never decreases and never passes the latest reading, so a next reading at or after the latest one does not panic either; an empty run changes nothing |
| `Schedule.CanRunPrefix` | src/bfi.rs:133-140 | if a run of readings never makes the `unwrap` panic, neither does any of its prefixes |
| `Schedule.CanRunNext` | src/bfi.rs:133-161 | in a run that never panics, reading n is not before the timestamp that the first n readings leave, and the first n + 1 readings are one more `Step` after the first n |
| `Schedule.RunStep` | src/bfi.rs:133-161 | if the first n readings end in state `p` with the alphas `alphas`, the first n + 1 readings end in `Step(p, reading n)` with that step's alpha appended to `alphas` |
| `Schedule.MonotoneCanRun` | src/bfi.rs:133-144 | monotone clock readings that start no earlier than the last flip never make the `unwrap` panic |
| `Schedule.RunPhaseLocked` | src/bfi.rs:129-146 | a run that starts on the grid counted from the start time ends on it: `lastFlip - start` stays a non-negative multiple of `STEP` |
| `Schedule.StepAlternates` | src/bfi.rs:148-155 | one tick keeps the emitted alphas alternating and the state toggled once per emitted alpha |
| `Schedule.RunAlternates` | src/bfi.rs:148-155 | the emitted alphas alternate, the i-th showing the state toggled i + 1 times, and the final state is toggled once per emitted alpha |
| `Schedule.ScenarioTicks` | src/bfi.rs:126-155 | starting opaque at 0: a tick at 4 ms does not flip, one at 13 ms flips to alpha 0 with the timestamp snapped to 12546900 ns, and one at 17.5 ms flips back to alpha 255 with the timestamp snapped to 16729200 ns |
| `Schedule.Scenario` | src/bfi.rs:126-161 | the vblank loop over the clock readings 4 ms, 13 ms and 17.5 ms, from opaque at 0, never panics, applies alpha 0 and then alpha 255, and ends opaque with the last flip at 16729200 ns |
| `Schedule.StallCollapses` | src/bfi.rs:143-148 | after a stall of ten intervals, one tick flips exactly once and leaves the timestamp within one step before `now` |
| `Schedule.SameReadingFlipsOnce` | src/bfi.rs:136-148 | after a flip the lag is at most `STEP`, strictly less than `INTERVAL`, and a second tick at the same reading neither flips nor changes the state |
| `Schedule.TransparentPhaseCanBeShort` | src/bfi.rs:136-146 | an opaque tick at `4 * STEP` after the last flip snaps to `3 * STEP` and goes transparent; a tick one clock unit later already flips back |
| `Bfi.BfiController.constructor` | src/bfi.rs:129-130 | the controller starts opaque with `lastFlip` at the start reading, which lies on the grid |
| `Bfi.BfiController.Tick` | src/bfi.rs:136-160 | the new fields and the returned alpha are exactly `Step` of the old fields; it flips iff the asymmetric dwell has elapsed; no flip changes nothing and returns None; a flip toggles once, returns `Some(0)` or `Some(255)` matching the new state, and moves `lastFlip` forward to within `now - STEP <= lastFlip < now`; the drift loop, stepping by `STEP`, terminates and keeps the phase-lock invariant |
| `Bfi.BfiController.RunUntilQuit` | src/bfi.rs:133-169 | for readings that never make the `unwrap` panic, the loop stops at the first iteration whose quit flag is set, and the final fields and the alphas applied are `Run` of the clock readings before it |

## Left out

- Window class registration, window creation, `ShowWindow`, `UpdateWindow`, `GetDC` and the `get_system_metrics` wrapper (src/bfi.rs:51-105): operating-system plumbing with no scheduling logic.
- Opening the display adapter, the vertical-blank wait and the unused scanline query (src/bfi.rs:107-123, 134): calls into the display driver. A tick is one call of `Tick`.
- `SetThreadPriority` (src/bfi.rs:59): a scheduling request to the operating system.
- The floating-point computation of the interval (src/bfi.rs:126): the model uses the resulting integer 4182350 ns as a constant, and its truncation to the clock's 100-ns units, 4182300 ns, as a second one.
- Platforms other than Windows: the program only builds for Windows, so the model uses Windows' 100-ns `SystemTime`. Readings are any `nat`; the readings the program can see are multiples of 100 ns, and the concrete lemmas use such readings.
- `SetLayeredWindowAttributes`, printing `GetLastError`, and `RedrawWindow` (src/bfi.rs:150-160): represented only by the alpha value that `Tick` returns.
- The message pump, `wnd_proc` and the global `QUIT_PROGRAM` flag (src/bfi.rs:28-49, 163-168): modelled only as the sequence of flag values that `RunUntilQuit` reads. Its precondition asks for the flag to be set after the last clock reading given to it, so each modelled run is finite.
- `SystemTime::now()`: the clock is an input. The source reads the clock once for the flip test (src/bfi.rs:138 or 140), then once per check of the correction loop's condition (src/bfi.rs:144), so the target `now - STEP` moves while that loop runs. The model uses one reading, `now`, for all of them.
- `FlipDue`, `Step`, `Tick`, `Run`, `RunUntilQuit`: a clock reading before the current `last_flip` makes the source panic at the `unwrap` (src/bfi.rs:138, 140). The model excludes such readings by precondition (`lastFlip <= now`, `CanRun`) and does not model the panic.
- Overflow of the `u64` nanosecond durations and of `SystemTime` arithmetic: time is an unbounded `nat`, and `now - STEP` is plain integer subtraction.
- The 3:1 convergence of opaque to transparent dwell time is not proved: it does not hold for every tick spacing. When an opaque tick flips exactly on a grid point and readings come one clock unit apart, the transparent phase lasts a single 100-ns unit (see above).
