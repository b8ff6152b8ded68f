# eng-clock: a Dafny model of the tick scheduler, the NTP offset measurement and the estimators

eng-clock is a desktop "engineering clock". A ticker thread wakes every
250 ms on a fixed grid of instants since the Unix epoch and sends each tick to
the display. Its clock reading is corrected by an offset, which arrives as
updates from an estimator thread. That thread pings NTP servers and derives
the local clock's offset and the round-trip delay from the four timestamps of
one exchange. Two small estimators smooth such measurements:

- an exponentially weighted moving average, normalised during warm-up;
- a recursive Bayesian (Gaussian) estimate of the offset.

This project models that core in Dafny and proves its properties:

| module | file | models |
|---|---|---|
| `Ticking` | `ticker.dfy` | `Ticker::predict_next`, the initial offset and the drain of pending offset updates in `Ticker::run` (src/ticker.rs) |
| `LegacyTicking` | `legacy_ticker.dfy` | the earlier `Ticker::wait_next` of the library root (src/lib.rs) |
| `NtpSync` | `sync.dfy` | `NtpPacket::{from, offset, transit}` and `OffsetEstimator::ntp_ping` (src/sync.rs) |
| `ExpoAverage` | `expo_avg.dfy` | `ExpoAvg::{new, query, add_sample, add_duration}` (src/stats.rs) |
| `BayesEstimate` | `bayes_offset.dfy` | `BayesOffset::{new, add_observation, avg_offset, clamp_variance}` (src/stats.rs) |
| `Arith`, `RealAlgebra`, `Wrappers` | `arith.dfy`, `real_algebra.dfy`, `wrappers.dfy` | Rust's integer division and casts, small facts about reals, and `Option` |

Conventions:

- Timestamps and durations are integers counting nanoseconds since the Unix
  epoch, the resolution of the date library.
- Waits, the NTP offset and `BayesOffset::avg_offset` are whole microseconds;
  the ticker's cached offset is a duration in nanoseconds.
- `timestamp_micros` rounds down, also before the epoch.
- Rust's `/` on integers truncates toward zero (`Arith.TruncDiv`). Among the
  tick computations, only `Ticking.PredictNextAsWritten` and
  `LegacyTicking.WaitNextAsWritten` use it. `NtpSync.NumMicroseconds` and
  `NtpSync.Offset` use it for the date library's truncation to microseconds
  and for the halving at src/sync.rs:48. `Ticking.PredictNext`,
  `LegacyTicking.WaitNext` and everything built on them (the run loop and its
  lemmas) use the floor quotient instead. For the tick computations the two
  agree from shortly before the epoch onwards; before that, the floor quotient is the
  corrected behaviour of "## Findings".
- `as u64` wraps modulo 2^64 (`Arith.AsU64`).
- A float-to-`i64` cast truncates toward zero (`BayesEstimate.TruncReal`) and
  saturates at the ends of the 64-bit range (`Arith.SatI64`).
- The estimators' `f64`/`f32` arithmetic is modelled over exact reals.

The clock, the network, the random number that picks a server and the
conversion of NTP wire timestamps are parameters of the model.

## Model

| member | source | states |
|---|---|---|
| `Ticking.TimestampMicros` | src/ticker.rs:70 | the microsecond count is the one whose microsecond contains the instant (rounding down, also before the epoch) |
| `Ticking.PredictNext` | src/ticker.rs:67-81 | the wait reaches the predicted tick's grid point from the offset-corrected instant; it is more than a quarter period and at most a period and a quarter; the nominal instant is that tick's grid point |
| `Ticking.PredictNextAsWritten` | src/ticker.rs:70-80 | with truncating division the wait still reaches the tick's grid point and exceeds a quarter period, but may last up to just short of two periods and a quarter instead of a period and a quarter (see Findings); the step is always positive, so the `u64` cast is exact |
| `Ticking.AsWrittenAgreesAfterEpoch` | src/ticker.rs:71-72 | from a period and a quarter before the epoch onwards, the truncating computation equals the corrected one |
| `Ticking.AsWrittenOverlongWait` | src/ticker.rs:71-73 | at 312 501 µs before the epoch the truncating computation waits 312 501 µs, more than a period and a quarter; the corrected one picks tick -1 and waits 62 501 µs; at 562 499 µs before the epoch the truncating wait reaches its largest value, 562 499 µs |
| `Ticking.PredictionUnique` | src/ticker.rs:71-73 | any tick whose grid point lies in the wait window is the predicted tick: the window holds exactly one grid point |
| `Ticking.OffsetOnlyThroughSum` | src/ticker.rs:70 | the offset enters the prediction only through the corrected instant `now + avg_offset` |
| `Ticking.TickMonotone` | src/ticker.rs:70-72 | a later corrected instant never gets an earlier tick |
| `Ticking.NextCallAdvances` | src/ticker.rs:71-76 | a call whose corrected instant lies within the window following a tick yields exactly the next tick, one period later: no tick is repeated or skipped |
| `Ticking.AtNominalWaitsOnePeriod` | src/ticker.rs:71-76 | called exactly at a tick's nominal instant, the prediction is the next tick with a wait of one full period |
| `Ticking.BasePredictionVectors` | src/ticker.rs:98-103 | the three instants of the unit test give its nominal instants, tick numbers (modulo 40) and waits |
| `Ticking.NewTicker` | src/ticker.rs:23-32 | a fresh ticker predicts as if there were no offset |
| `Ticking.Drain` | src/ticker.rs:49-52 | after draining, the offset is the newest pending update's; with nothing pending the ticker is unchanged |
| `Ticking.DrainBatches` | src/ticker.rs:49-52 | draining two batches one after the other equals draining them at once |
| `Ticking.Iterate` | src/ticker.rs:41-52 | one loop pass emits a tick on the grid, within the wait window of the cached offset and stamped with the transmit time, and then takes the newest pending offset |
| `Ticking.Run` | src/ticker.rs:39-54 | the loop emits one tick per pass; every tick's nominal instant is its grid point and it carries its own pass's transmit time; the first tick lies in the wait window of the ticker's starting offset |
| `Ticking.RunEveryPass` | src/ticker.rs:41-52 | every pass, not only the first, emits the tick that one loop pass predicts from the offset held when that pass begins, i.e. after every earlier pass has drained its updates |
| `Ticking.RunAt` | src/ticker.rs:41-52 | the tick of pass i is the one a single loop pass emits from the state left after passes 0 to i-1 have drained their updates |
| `Ticking.RunConsecutive` | src/ticker.rs:41-52 | when each pass wakes within the window after the previous tick, tick numbers rise by exactly one and nominal instants by exactly one period |
| `LegacyTicking.WaitNext` | src/lib.rs:61-73 | the sleep reaches the tick's grid point and lasts between 1 µs and one period; the nominal instant is the clock reading plus the sleep, which is the grid point plus the reading's sub-microsecond part |
| `LegacyTicking.WaitNextAsWritten` | src/lib.rs:64-72 | with truncating division the sleep still reaches the grid point and is at least 1 µs, but may last up to just short of two periods instead of one (see Findings); the step is always positive, so the `u64` cast is exact |
| `LegacyTicking.AsWrittenAgreesAfterEpoch` | src/lib.rs:65-66 | from one period before the epoch onwards, the truncating computation equals the corrected one |
| `LegacyTicking.AsWrittenOverlongSleep` | src/lib.rs:65-70 | at 250 001 µs before the epoch the truncating computation sleeps 250 001 µs, more than a period; the corrected one picks tick -1 and sleeps 1 µs; at 499 999 µs before the epoch the truncating sleep reaches its largest value, 499 999 µs |
| `LegacyTicking.OnBoundaryAdvances` | src/lib.rs:65-67 | on a grid point the next tick is the following one, a full period away |
| `LegacyTicking.AgainAtNominal` | src/lib.rs:65-72 | called again at the returned nominal instant, the next tick follows the previous one |
| `LegacyTicking.TickMonotone` | src/lib.rs:65-66 | a later clock reading never gets an earlier tick |
| `LegacyTicking.MarginIsQuarterPeriodShift` | src/ticker.rs:71-72 | with no offset, the newer scheduler picks the tick that the older one picks a quarter period later |
| `NtpSync.From` | src/sync.rs:31-43 | the exchange exists exactly when all three packet timestamps convert; it holds the converted timestamps and the local arrival time |
| `NtpSync.NumMicroseconds` | src/sync.rs:48 | whole microseconds rounded toward zero, within 1 µs of the duration; absent only when the duration exceeds the 64-bit microsecond range |
| `NtpSync.Transit` | src/sync.rs:52-54 | the delay is the round trip minus the server's holding time (delta of section 8 of RFC 5905) |
| `NtpSync.Offset` | src/sync.rs:46-49 | the offset is minus RFC 5905's theta, rounded toward zero to whole microseconds; twice it is within 1 µs of the microsecond leg difference, of the same sign and no larger; on overflow it is half the sentinel 2^60 |
| `NtpSync.SymmetricLegsNoOffset` | src/sync.rs:46-49 | equal outbound and return legs give a zero offset |
| `NtpSync.ShiftServerTransit` | src/sync.rs:52-54 | a server clock off by any amount leaves the delay unchanged |
| `NtpSync.ShiftServerClock` | src/sync.rs:46-49 | a server clock ahead by whole microseconds moves the offset back by that amount, to within 1 µs |
| `NtpSync.HostIndex` | src/sync.rs:93 | the chosen index is a valid one, and a random number below the list length picks itself |
| `NtpSync.HostIndexPeriodic` | src/sync.rs:93 | the choice repeats with period equal to the list length in the random number |
| `NtpSync.NtpPing` | src/sync.rs:91-105 | a ping reports the chosen server exactly when its reply arrives and converts, with that exchange's offset and delay |
| `ExpoAverage.NewExpoAvg` | src/stats.rs:19-27 | a new filter is valid, keeps its smoothing factor and has no average yet |
| `ExpoAverage.Query` | src/stats.rs:30-36 | the average is absent exactly when the weights sum to zero; otherwise it times the weight sum is the weighted sum |
| `ExpoAverage.Update` | src/stats.rs:40-41 | one step read as exponential forgetting: the old weighted sum and the weight still missing both decay by 1 - eps, and the sample enters with weight eps |
| `ExpoAverage.UpdateValid` | src/stats.rs:39-41 | an update keeps the filter valid and leaves a weight sum of at least eps |
| `ExpoAverage.UpdateBetween` | src/stats.rs:39-43 | after one sample the average is the sample itself if there was none before, and otherwise lies between the old average and the sample |
| `ExpoAverage.AddSample` | src/stats.rs:39-44 | the new state is one `Update` step; the returned average is what a query then reports; the missing weight shrinks by the factor 1 - eps; the new average times the new weight sum is the old average weighted by its decayed weight plus the sample weighted by eps; the first sample is its own average and later ones pull the average toward them |
| `ExpoAverage.Samples` | src/stats.rs:39-44 | folding in samples never changes the smoothing factor |
| `ExpoAverage.SamplesLast` | src/stats.rs:39-44 | the samples are folded in first to last: one more sample at the end is one more `Update` step |
| `ExpoAverage.SamplesConcat` | src/stats.rs:39-44 | samples folded in two batches end where all of them at once do |
| `ExpoAverage.SamplesValid` | src/stats.rs:39-43 | any number of samples keep the filter valid, and after one the average is defined |
| `ExpoAverage.DenominatorClosedForm` | src/stats.rs:41 | after n samples the missing weight is the initial one times (1 - eps)^n |
| `ExpoAverage.FreshFilterWeight` | src/stats.rs:126-127 | from a new filter the weight sum after n > 0 samples is 1 - (1 - eps)^n, strictly between 0 and 1 |
| `ExpoAverage.ConstantInput` | src/stats.rs:113-131 | a constant input is a fixed point: each sample v added to an average of v (or to none) returns v, and so does the query after any number of them |
| `ExpoAverage.StepBounded` | src/stats.rs:39-43 | a sample within a range keeps an average within that range there |
| `ExpoAverage.SamplesBounded` | src/stats.rs:39-44 | the average after samples within a range stays within that range |
| `ExpoAverage.Round` | src/stats.rs:51 | rounding to the nearest integer, halves away from zero |
| `ExpoAverage.AddDuration` | src/stats.rs:47-52 | the duration enters as a sample of its nanoseconds, or as 10 s when they overflow 64 bits; the returned duration is the new average to within 0.5 ns when that rounds into 64 bits, and the nearer end of the range otherwise; a duration equal to the average comes back exactly |
| `ExpoAverage.Durations` | src/stats.rs:47-52 | folding in any number of durations keeps the filter valid and its smoothing factor |
| `ExpoAverage.ConstantDurations` | src/stats.rs:47-52 | copies of one duration average to exactly that duration |
| `ExpoAverage.DurationsVector` | src/stats.rs:152-161 | twenty samples of 67 µs average to 67 000 ns |
| `BayesEstimate.ClampVariance` | src/stats.rs:96-102 | the variance is the square of the precision floored at `MIN_PRECISION`, so never below `MIN_PRECISION`² |
| `BayesEstimate.ClampVarianceMonotone` | src/stats.rs:96-102 | a coarser precision never gives a smaller variance |
| `BayesEstimate.NewBayesOffset` | src/stats.rs:70-75 | a new belief has zero mean and the clamped variance of its initial uncertainty, which is positive |
| `BayesEstimate.NewBayesOffsetVectors` | src/stats.rs:70-75 | zero and negative uncertainties are floored; an uncertainty of 1.5 s gives 2.25 s² |
| `BayesEstimate.AddObservation` | src/stats.rs:77-86 | the new variance is positive and below both the prior's and the measurement's; the new mean lies between the prior mean and the offset |
| `BayesEstimate.AddObservationClosedForm` | src/stats.rs:78-83 | the variance is the product over the sum of the two variances; the mean weights each source by the other's variance; the precisions add, and so do the precision-weighted means |
| `BayesEstimate.EqualVariancesMidpoint` | src/stats.rs:78-83 | when the prior is as uncertain as the measurement, the mean becomes their midpoint and the variance halves |
| `BayesEstimate.Observe` | src/stats.rs:77-86 | a sequence of observations keeps the variance positive, and at least one makes it smaller |
| `BayesEstimate.ObserveInformationForm` | src/stats.rs:77-86 | sequential updates equal fusing everything at once: the final precision is the prior's plus the observations', and likewise for the precision-weighted means |
| `BayesEstimate.FinestTotalPrecision` | src/stats.rs:96-102 | n observations at the finest precision add n / `MIN_PRECISION`² of precision |
| `BayesEstimate.VarianceUnfloored` | src/stats.rs:83-85 | from the finest belief, n finest observations leave a variance of `MIN_PRECISION`² / (n + 1): the variance has no floor and tends to zero |
| `BayesEstimate.TruncReal` | src/stats.rs:89 | rounding toward zero |
| `BayesEstimate.AvgOffsetMicros` | src/stats.rs:88-90 | the mean offset in whole microseconds fits 64 bits; in range, it lies between zero and the exact value, less than 1 µs short of it (rounding toward zero); out of range, it is the nearer end of the range |
| `BayesEstimate.AvgOffsetMicrosExact` | src/stats.rs:88-90 | a mean that is a whole number of microseconds within 64 bits is reported exactly |

## Left out

- Threads, sleeps and channels. The loops of `Ticker::run` (src/ticker.rs:39-54 and src/lib.rs:46-59) and `OffsetEstimator::run` (src/sync.rs:81-89) are not modelled as processes. The sleeps and the `send(..).unwrap()` calls are left out too. One pass of the ticker loop is a pure function of the clock readings and the pending updates (`Ticking.Iterate`).
- Clock readings (`utc_now`, `chrono::Local::now`), the NTP request, and `weak_rand` are parameters, because they are I/O or randomness.
- `NtpPacket::tx_timestamp` (src/sync.rs:56-60) is the `convert` parameter of `NtpSync.From`. It converts NTP-era seconds through the local time zone in the date library. The February 2036 era rollover is therefore not modelled either.
- `OffsetEvent` carries only the offset the ticker reads (src/ticker.rs:51). In src/sync.rs the event is still empty, and `OffsetEstimator::run` sends it after a 40 s sleep. That loop is left out, since its event carries no data. The crate root defining the event is not part of this model.
- `OffsetEstimator::new` (src/sync.rs:71-78) copies `NTP_SERVERS` into a vector. The model keeps the constant, and `NtpSync.NtpPing` takes the list as a parameter.
- NtpSync.NtpPing: the program only prints the offset and delay. The model returns them, so a contract can state them.
- Floating point: `f64`/`f32` rounding, infinities and NaN are not modelled, because the estimators are modelled over exact reals.
- ExpoAverage.AddSample: requires the filter invariant `Valid`. That means 0 < eps < 1, a weight sum in [0, 1), and a zero weighted sum while the weights sum to zero. `NewExpoAvg` establishes it, `UpdateValid` keeps it, and the fields are private, so no other filter exists.
- BayesEstimate.AddObservation: requires a positive prior variance. `NewBayesOffset` establishes it and the update keeps it. With a zero variance the program would divide by zero in floating point.
- The weighted-sum closed form of the filter's numerator after n samples is not stated. The weight-sum closed form is proved (`ExpoAverage.DenominatorClosedForm`).
- The ramp test (src/stats.rs:133-150) is not modelled. Its expected value holds exactly after any whole number of periods, but proving that needs the weighted-sum closed form above, which is not stated.
- `BayesOffset::stddev_offset` (src/stats.rs:92-94) is a square root of a float.
- Ticking.Iterate, Ticking.Run, Ticking.RunEveryPass, Ticking.RunConsecutive, Ticking.NextCallAdvances, Ticking.AtNominalWaitsOnePeriod, Ticking.TickMonotone and Ticking.PredictionUnique: they use the floor quotient of `PredictNext`. For corrected instants more than 312 500 µs before the epoch they describe the corrected behaviour of "## Findings", not the program's truncating division, which there emits a later tick (0 instead of -1 at 312 501 µs before the epoch).
- LegacyTicking.OnBoundaryAdvances, LegacyTicking.AgainAtNominal and LegacyTicking.TickMonotone: they use the floor quotient of `WaitNext`. For clock readings more than 250 000 µs before the epoch they describe the corrected behaviour of "## Findings", not the program.
- 64-bit overflow of the timestamp arithmetic is not modelled; the model's integers are unbounded. This covers `now + avg_offset`, `tick_id * PERIOD_US` and `now + microseconds(step)`. So is the date library's panic (the `unwrap` at src/ticker.rs:75) for instants outside its range.
- src/config.rs, src/main.rs, src/logo.rs and src/testing.rs are not part of this model. They are configuration parsing, the GTK user interface, drawing and test helpers.

## Findings

| source | as written | input that shows it | evidently intended | confidence | as-written member | corrected member |
|---|---|---|---|---|---|---|
| src/ticker.rs:71-73 | the tick number is `(now_us + P + P/4) / P` with Rust's truncating division | a corrected instant 312 501 µs before the epoch: tick 0 and a wait of 312 501 µs, more than a period and a quarter, passing over the grid point of tick -1; at 562 499 µs before the epoch the wait is 562 499 µs, the longest it gets (just short of 2P + P/4) | floor division: tick -1, a wait of 62 501 µs, and every wait in (P/4, 5P/4] | not executed; only a clock set before 1970 reaches it | `Ticking.PredictNextAsWritten`, shown by `Ticking.AsWrittenOverlongWait` | `Ticking.PredictNext` |
| src/lib.rs:65-67 | the tick number is `(now_us + P) / P` with Rust's truncating division | a clock reading 250 001 µs before the epoch: tick 0 and a sleep of 250 001 µs, more than a period; at 499 999 µs before the epoch the sleep is 499 999 µs, the longest it gets (just short of 2P) | floor division: tick -1, a sleep of 1 µs, and every sleep in [1 µs, P] | not executed; only a clock set before 1970 reaches it | `LegacyTicking.WaitNextAsWritten`, shown by `LegacyTicking.AsWrittenOverlongSleep` | `LegacyTicking.WaitNext` |
