# ratelimited: the RLCtr quota gate in Dafny

`ratelimitedworker.go` defines `RLCtr`, a gate that callers pass through before each unit of work.
`Create(id, targetRPM, hasty, verbose)` derives a per-second pace `targetRPS` for the
`go.uber.org/ratelimit` pacer and stores the per-minute quota `TargetRPM`. `Track` starts the
counter on first use. It then waits while `history >= TargetRPM`, takes a pacer slot, and adds
one to `history`. `start` launches two ticker goroutines. One stores 0 into `history` every
minute. The other reports, every 5 seconds, how much `history` grew since its previous tick.

The model is a sequential state machine over the struct's fields:

- `go_int.dfy` (module `GoInt`) gives the Go integer semantics the code relies on.
  - `uint32` and the 64-bit `int` are subset types.
  - The conversion `uint32(x)`, wrapping addition and subtraction, and `uint32` division are written out.
  - Go's signed division truncates toward zero. It is written out as `Quo`, because Dafny's `/` is Euclidean.
  - `math.Ceil` and `math.Floor` are taken on exact reals.
- `ratelimitedworker.dfy` (module `RateLimitedWorker`) holds the gate itself.
  - `State` is the value of the struct. `Create`, `Activate` (`start`), `Track` (one guarded attempt),
    `Reset` (the minute tick) and `WindowDelta` (the 5-second tick) are pure functions on it.
  - The class `RLCtr` holds the same fields and updates them in place. Its methods are proved against
    those functions and keep the invariant `history <= TargetRPM`.
  - A ghost counter records how often `start` ran.
  - `WatchWindows` is the diagnostic goroutine's loop over the values of `history` its ticks read.
- `runs.dfy` (module `Runs`) runs any sequence of `Track` attempts and minute resets from a state. It
  tallies how often `start` ran and how many attempts were admitted, and proves the gate's promises
  over such runs.

Two behaviours of the source are kept as written:

- `targetRPM / 60` is an integer division done before `math.Ceil`/`math.Floor`. The `hasty` flag
  therefore changes nothing: `RoundingModeIsInert` proves both modes build the same counter. For
  example, 1000 per minute gives a pace of 16 in both modes, not 17 and 16.
- `TargetRPM` is `uint32(targetRPM)`. A target of -1 gives a quota of 4294967295. A target of 0 or
  2^32 gives a quota of 0, and then no `Track` is ever admitted (`ZeroQuotaNeverAdmits`).

## Model

| member | source | states |
|---|---|---|
| `GoInt.ToUint32` | ratelimitedworker.go:66 | `uint32(x)` is `x` itself for 0 <= x < 2^32, `x + 2^32` for a negative `x` down to -2^32, and always differs from `x` by a multiple of 2^32 |
| `GoInt.AddU32` | ratelimitedworker.go:96 | `atomic.AddUint32` gives the exact sum below 2^32 and the sum minus 2^32 above it |
| `GoInt.SubU32` | ratelimitedworker.go:112 | `uint32` subtraction is exact when `b <= a` and wraps by 2^32 otherwise |
| `GoInt.DivU32` | ratelimitedworker.go:122 | `counter/uint32(window)` is the largest `r` with `r * b <= a` |
| `GoInt.Quo` | ratelimitedworker.go:49-51 | Go's `targetRPM / 60` truncates toward zero: for `a >= 0` the quotient is non-negative with `q*d <= a < q*d + d`; for `a < 0` it is non-positive with `q*d - d < a <= q*d` |
| `GoInt.Floor` | ratelimitedworker.go:49-51 | `math.Floor` gives the whole number `r` with `r <= x < r + 1` |
| `GoInt.Ceil` | ratelimitedworker.go:49-51 | `math.Ceil` gives the whole number `r` with `r - 1 < x <= r` |
| `GoInt.QuoTruncatesTowardZero` | ratelimitedworker.go:49 | Go's `targetRPM / 60` truncates toward zero: for `a >= 0`, `q*d <= a < q*d + d`; for `a < 0`, `q*d - d < a <= q*d`; and `Quo(-a, d) == -Quo(a, d)` |
| `GoInt.QuoVersusEuclidean` | ratelimitedworker.go:51 | the Go quotient equals Dafny's Euclidean one except for negative non-multiples, where it is one larger |
| `GoInt.WholeNumberUnrounded` | ratelimitedworker.go:48-52 | `math.Ceil` and `math.Floor` return a whole number unchanged |
| `RateLimitedWorker.Pace` | ratelimitedworker.go:48-52 | in both rounding modes the pace is `targetRPM / 60` truncated toward zero |
| `RateLimitedWorker.RoundingModeIsInert` | ratelimitedworker.go:48-52 | `Create` with `hasty = true` and with `hasty = false` give the same struct, for every target |
| `RateLimitedWorker.CreateExamples` | ratelimitedworker.go:45-71 | paces 600 → 10, 1000 → 16, 59 → 0, -59 → 0, -61 → -1; quotas -1 → 4294967295 and 2^32 → 0 |
| `RateLimitedWorker.Create` | ratelimitedworker.go:38-72 | a new counter is inactive with `history = 0` (so within its quota), `TargetRPM = uint32(targetRPM)`, pace `targetRPM / 60` truncated, and the given id and verbose flag |
| `RateLimitedWorker.Activate` | ratelimitedworker.go:101 | `start` sets `active` and leaves `history` alone |
| `RateLimitedWorker.Track` | ratelimitedworker.go:74-97 | one attempt starts the counter if and only if it was inactive; it admits if and only if `history < TargetRPM`; an admission adds exactly 1 (no wrap), a refusal changes no count; no other field changes; `history <= TargetRPM` is preserved |
| `RateLimitedWorker.Reset` | ratelimitedworker.go:143 | the minute tick leaves `history = 0`, which is within any quota |
| `RateLimitedWorker.WindowDelta` | ratelimitedworker.go:110-117 | the window count is the growth `history - prev` when `history > prev` and 0 otherwise; it never underflows and never exceeds `history` |
| `RateLimitedWorker.RLCtr.constructor` | ratelimitedworker.go:63-71 | the object holds exactly the value `Create` returns, satisfies the invariant, and has not run `start` |
| `RateLimitedWorker.RLCtr.Start` | ratelimitedworker.go:100-101 | called only on an inactive counter, `start` makes it active, changes nothing else, and is counted once |
| `RateLimitedWorker.RLCtr.TryTrack` | ratelimitedworker.go:74-96 | admits if and only if `old(history) < TargetRPM`, then `history` grows by exactly 1; otherwise `history` is unchanged; the counter is active and `start` has run exactly once; the new state is `Track`'s; `history <= TargetRPM` is kept |
| `RateLimitedWorker.RLCtr.ResetTick` | ratelimitedworker.go:132-146 | the minute tick sets `history` to 0, changes nothing else, and keeps the invariant |
| `RateLimitedWorker.RLCtr.WindowTick` | ratelimitedworker.go:110-126 | reads only: the count is `WindowDelta(history, prev)` and is at most `TargetRPM`; the reported rate is the count divided by 5, rounded down; the next `prev` is `history` |
| `RateLimitedWorker.WatchWindows` | ratelimitedworker.go:105-129 | one count per tick, each the clamped growth since the previous tick's value; with no reset between the ticks, the counts add up to the total growth of `history` |
| `Runs.RunKeepsConfiguration` | ratelimitedworker.go:74-146 | no sequence of `Track` attempts and resets changes the id, `TargetRPM`, `targetRPS` or `verbose` |
| `Runs.RunStaysWithinQuota` | ratelimitedworker.go:84-96 | with `Track` and the reset as the only writers, `history <= TargetRPM` holds after every run, so `history` never wraps |
| `Runs.RunActivation` | ratelimitedworker.go:74-81 | after a run the counter is active if and only if it was active before or the run called `Track`; it never becomes inactive again |
| `Runs.RunStartsOnce` | ratelimitedworker.go:74-101 | `start` runs exactly once in a run that calls `Track` on an inactive counter, and never otherwise |
| `Runs.MinuteAdmissions` | ratelimitedworker.go:84-96 | between two resets, admissions are at most `TargetRPM - history`, and `history` grows by exactly the number of admissions |
| `Runs.RunAdmissionsBounded` | ratelimitedworker.go:84-143 | a run with `k` resets admits at most the room left at its start plus `k` times `TargetRPM` |
| `Runs.ZeroQuotaNeverAdmits` | ratelimitedworker.go:84-93 | with `TargetRPM = 0` no attempt is ever admitted, resets or not |
| `Runs.TracksAdmitUpToQuota` | ratelimitedworker.go:84-96 | `n` attempts within one minute admit exactly `min(n, TargetRPM - history)` |
| `Runs.BurstAcrossReset` | ratelimitedworker.go:84-143 | on an empty counter, a burst of between one and two quotas of attempts admits one full quota; after the reset, as many attempts as were refused are all admitted |
| `Runs.Scenario600` | ratelimitedworker.go:48-96 | a 600-per-minute counter paces at 10 per second; of 1000 calls, 600 pass before the reset and the other 400 pass after it |

## Left out

- The `go.uber.org/ratelimit` limiter (`ratelimit.New`, `RL.Take`). It is a foreign library whose effect is wall-clock spacing. `Take` is a step with no effect on the modelled fields, and the pacing property (admissions at least `1/targetRPS` apart) is not stated.
- Goroutines, `time.NewTicker` and `time.Sleep`. Their bodies are methods callable in any order once the counter is active, so the one-minute and five-second periods are not modelled.
- `RLCtr.TryTrack`: the blocking `for history >= TargetRPM { sleep }` loop of `Track` is one poll of the guard. In Go a blocked `Track` never returns unadmitted: it sleeps until the reset goroutine stores 0 and then completes. The model does not keep the blocked caller pending. Its wake-up after the reset is a new `CallTrack` after a `MinuteReset` event, so `Run`'s `admissions` counts admitted polls, not completed `Track` calls.
- Data races: the unsynchronised check-then-set of `active` and the non-atomic guard-then-increment of `history`. The model assumes no interleaving and claims nothing about concurrent callers.
- Logging: `log.Default()` and its prefix and flags, and every `Printf`/`Println`. They are output only. `verbose` is kept as a field, and the rate that the window tick prints is returned by `WindowTick`.
- `Pace`: the Go code converts `targetRPM / 60` to `float64` before `math.Ceil`/`math.Floor`. The model takes that conversion as exact. In Go it is exact at least when the quotient is at most 2^53 in absolute value; a quotient that is not a representable double rounds to a nearby one, the same way in both modes. So `Create`'s `targetRPS == Quo(targetRPM, 60)` can differ from Go when `|targetRPM| >= 60·(2^53+1)`.
- What the limiter does with a pace of 0 or less is not modelled. `Create` gives such a pace for every target below 60, and it is passed unchecked to `ratelimit.New`.
- `Create`: the `RL` and `logger` fields are not part of `State`, for the reasons above.
- `Runs.Scenario600`: the call count is a parameter required to be 1000, so the verifier does not unfold a literal sequence of 1000 events. Timing (about 60 seconds for the first 600) is not stated.
- A minute tick is modelled only on an active counter, because the reset goroutine exists only after `start`. In `Runs.Step` a `MinuteReset` event on an inactive counter changes nothing.
- The `ID` field is carried but only used by the logger.
- example/example.go is not part of this model. It is producer/consumer wiring with channels and random sleeps around `Create` and `Track`.
