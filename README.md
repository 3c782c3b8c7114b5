# vital: pulse ingestion and session accumulation, in Dafny

This project models the engine of a bike telemetry service. A rotation
sensor delivers edge events stamped on a monotonic clock. The engine
debounces them and counts wheel revolutions. On each poll, a snapshot step
integrates the wall time elapsed since the previous poll into a moving-time
accumulator and a calorie accumulator, then reports speed, distance, moving
minutes and calories. A reset replaces the whole session with a fresh one.

Files and modules:

- `metrics.dfy`, module `Metrics`: the MET speed-tier table and decimal
  rounding (half away from zero), on mathematical reals.
- `telemetry.dfy`, module `Telemetry`: the `Session`, `Config`, `Stats` and
  `LineEvent` values, the session invariant `Inv`, and the three operations
  as functions from the old session to the new one: `EdgeStep`,
  `SnapshotStep` (with `SnapshotStats` for the figures reported) and
  `NewSession`.
- `runs.dfy`, module `Runs`: arbitrary serialised runs of edges, polls and
  resets (`Exec`), with the properties proved over every run.
- `engine.dfy`, module `Engine`: the `App` class. The session fields are
  mutable fields, and `OnEdge`, `Snapshot` and `Reset` update them in place.
  Each method is proved to produce exactly the session its `Telemetry`
  function gives and to keep `Valid()`.
- `scenarios.dfy`, module `Scenarios`: worked numeric examples with the
  default configuration (1.41 m wheel, 85 kg rider, 2 s idle timeout).

Times are integer nanoseconds, and 0 means "unset", as the source's
`IsZero()` and `LastTimestamp > 0` tests do. Every clock reading the
source takes (`time.Now()`, `time.Since`) is passed in as a parameter.

## Model

| member | source | states |
|---|---|---|
| `Metrics.MetFromSpeed` | main.go:69-84 | the MET value is one of 3.5, 5.5, 7.0, 8.0, 10.0, 12.0, and each value is returned exactly on its half-open speed tier, with bounds at 10, 16, 20, 24 and 28 km/h |
| `Metrics.MetMonotone` | main.go:69-84 | a higher speed never gets a lower MET value |
| `Metrics.Pow10` | main.go:163 | the decimal scale is at least 1, and at least 10 for one or more places |
| `Metrics.RoundHalfAway` | main.go:164 | the integer is at most one half away from its argument, and ties go away from zero |
| `Metrics.RoundHalfAwayOdd` | main.go:164 | rounding a negated value gives the negated rounding |
| `Metrics.RoundHalfAwayUnique` | main.go:164 | any integer meeting the rounding contract is the rounded value, so the contract fixes the result |
| `Metrics.Round` | main.go:159-165 | a negative number of places returns the value unchanged; otherwise the result lies on the 10^-places grid, is within half a grid step of the value, and a tie goes away from zero |
| `Metrics.RoundToScale` | main.go:163-164 | `math.Round(v*f)/f` is on the grid of multiples of 1/f, within half a step of v, with ties away from zero |
| `Metrics.RoundToScaleUnique` | main.go:163-164 | any value meeting those three conditions is the rounded value, so they fix the result |
| `Metrics.RoundUnique` | main.go:159-165 | the same for `Round` at a number of decimal places: the grid, bound and tie rules determine the reported figure |
| `Telemetry.Inv` | main.go:96-109 | the session invariant: a recorded interval is 0 or more than 10 ms, a recorded timestamp, pulse time or interval implies one, one or two counted pulses, and moving time is not negative |
| `Telemetry.NewSession` | main.go:169 | a fresh session has zero counters and accumulators, the given start time, satisfies `Inv`, is never moving, and its first snapshot sees zero elapsed time |
| `Telemetry.Accepted` | main.go:96-102 | an edge is counted exactly when it is a falling edge and either no earlier timestamp is recorded or it comes more than 10 ms after the recorded one |
| `Telemetry.EdgeStep` | main.go:86-110 | a non-falling edge changes nothing; a first pulse counts one, keeps the interval and records the timestamp and wall time; a bounce within 10 ms only moves the debounce timestamp; a later edge records the interval and counts one; accumulators never change; one revolution is counted exactly when the edge is accepted; `Inv` is preserved |
| `Telemetry.DtWall` | main.go:116-121 | elapsed wall time is zero when no snapshot happened before, is otherwise the nanosecond difference in seconds, and is positive exactly when a previous snapshot exists and the clock moved forward |
| `Telemetry.Moving` | main.go:133-139 | the rider is moving exactly when a pulse wall time is recorded and fewer than the idle-timeout seconds have passed since it |
| `Telemetry.DistanceKm` | main.go:124 | distance is never negative for a non-negative circumference, and is zero before any pulse |
| `Telemetry.DistanceAfterEdge` | main.go:124 | an accepted edge adds exactly one circumference (in km) to the distance; any other edge leaves it unchanged |
| `Telemetry.SpeedKmh` | main.go:127-131 | speed is zero until an interval is recorded; speed times interval equals circumference times 3.6e9; speed is non-negative for a non-negative circumference |
| `Telemetry.KcalPerMinute` | main.go:144 | the energy rate is non-negative for a non-negative weight and MET, and positive when both are positive |
| `Telemetry.KcalPerMinuteMonotone` | main.go:143-144 | for a non-negative weight the energy rate never falls as speed rises |
| `Telemetry.KcalPerMinuteNonNegative` | main.go:143-144 | with a non-negative body weight the energy rate is non-negative |
| `Telemetry.SnapshotStep` | main.go:116-147 | the snapshot time is recorded; pulse fields and start time are unchanged; moving time changes exactly when moving and the elapsed time is positive, and then grows by the elapsed time; calories change only then; the first snapshot never accrues; moving time never decreases, and calories never decrease for a non-negative weight; `Inv` is preserved |
| `Telemetry.SnapshotStats` | main.go:149-156 | every figure is computed from the session after the integration step: moving minutes and calories are rounded from the updated accumulators; count, start time, distance and speed are also those of the session before, since the step leaves their fields alone |
| `Telemetry.SnapshotStatsDecimals` | main.go:149-156 | each reported figure is its exact value rounded to the displayed decimals, halves away from zero: 3 for distance, 2 for speed and moving minutes, 1 for calories |
| `Runs.Step` | main.go:86-171 | every serialised call preserves `Inv`; a reset yields a fresh session; any other call never decreases revolutions or moving time, nor calories for a non-negative weight |
| `Runs.ExecAppend` | main.go:86-171 | running one more call after a run equals applying that call to the run's result |
| `Runs.ExecPreservesInv` | main.go:98-102 | after any run from a valid session, a recorded interval still exceeds 10 ms and the other invariant facts hold |
| `Runs.ExecWithoutResetMonotone` | main.go:103-146 | over any run without a reset, revolutions and moving time never decrease, and calories never decrease for a non-negative weight |
| `Runs.ExecWithoutResetKeepsStart` | main.go:169 | only a reset changes the session start time |
| `Runs.ResetDiscardsHistory` | main.go:167-171 | the session after a reset depends only on the reset time, whatever came before |
| `Runs.SpacedEdgesAllCounted` | main.go:96-109 | a run of falling edges each more than 10 ms after the previous one adds exactly one revolution per edge |
| `Runs.EdgesCountAtMostOnce` | main.go:96-109 | a run of edges adds between zero and one revolution per event |
| `Runs.DebounceWindowSlides` | main.go:97-101 | after a bounce, the next falling edge counts exactly when it is more than 10 ms after the bounce, and then the recorded interval is measured from the bounce |
| `Runs.PollsKeepPulseFields` | main.go:123-131 | snapshots alone leave revolutions, timestamps and interval unchanged, so reported speed and distance do not change with idle time |
| `Runs.IdlePollsFreeze` | main.go:133-147 | once every snapshot time is past the idle timeout, repeated snapshots accrue neither moving time nor calories |
| `Runs.RepeatedPollNoDoubleAccrual` | main.go:116-121 | a second snapshot at the same instant leaves the session exactly as the first left it |
| `Runs.FirstPollNeverAccrues` | main.go:117-121 | the first snapshot of a fresh session leaves moving time and calories at zero |
| `Engine.App.constructor` | main.go:58-64 | a new engine holds the given configuration and a fresh session, and satisfies `Valid()` |
| `Engine.App.OnEdge` | main.go:86-110 | the fields afterwards form exactly `EdgeStep` of the fields before, and `Valid()` is kept |
| `Engine.App.Snapshot` | main.go:112-157 | the fields afterwards form exactly `SnapshotStep` of the fields before, the returned stats are `SnapshotStats`, and `Valid()` is kept |
| `Engine.App.Reset` | main.go:167-171 | the fields afterwards form exactly a fresh session at the given time; the configuration is a constant and stays |
| `Scenarios.DefaultConfig` | main.go:200-207 | the start-up configuration (1.41 m, 85 kg, 2 s) is a physically meaningful one: positive circumference, weight and idle timeout |
| `Scenarios.TwoPulsesHalfSecondApart` | main.go:126-131 | with a 1.41 m wheel, two pulses 500 ms apart give a 500 ms interval, speed 10.152 km/h, reported as 10.15 |
| `Scenarios.OneMinuteOfSlowRiding` | main.go:141-147 | at 85 kg and under 10 km/h, one moving minute between snapshots adds 60 s and 5.20625 kcal, reported as 5.2 kcal and 1.00 minutes |
| `Scenarios.BounceExtendsQuietPeriod` | main.go:96-101 | an edge 12 ms after an accepted pulse is rejected when a bounce came 7 ms before it |

## Left out

- HTTP server, routes and JSON response wrappers (main.go:215-232): transport I/O over a web framework. The `Stats` value is what the stats route serialises.
- GPIO line request and close (`openGPIO`, `closeGPIO`): calls into a hardware library. The edge events they deliver are the `LineEvent` parameter of `OnEdge`.
- The channel-based lock (`lock`, `unlock`): each method is modelled as one atomic step. This is how the lock serialises them.
- Signal handling, the server goroutine, logging and the embedded HTML page: process plumbing outside the engine.
- `Config.ChipName`, `LineOffset` and `HttpPort`: read only by the excluded GPIO and HTTP code.
- Clock reads: `time.Now()` and `time.Since` become parameters. `Engine.App.Snapshot` reads the clock twice in the source (lines 116 and 136), and the model takes both readings as one instant `now`. `time.Now().Unix()` becomes `nowEpochSeconds`.
- Go's `time.Time` is modelled as integer nanoseconds with 0 as the zero time. The saturation of `Time.Sub` at the `int64` limits is not modelled.
- Engine.App.OnEdge: the `uint64` revolution counter is an unbounded `nat`, so wrap-around at 2^64 is not modelled. That would take about 5.8 billion years at 100 revolutions per second.
- Engine.App.OnEdge: `dt` is an unbounded integer. The `int64` subtraction cannot overflow for the non-negative monotonic timestamps the sensor reports.
- Metrics.Round: `float64` arithmetic, `math.Pow` and `math.Round` are modelled on exact reals. No claim is made about IEEE-754 rounding of the reported figures.
- Engine.App.OnEdge, Engine.App.Snapshot, Engine.App.Reset: each requires `Valid()`. This is the object invariant, which the constructor establishes and every method keeps, so no reachable engine is excluded.
