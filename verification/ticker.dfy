/**
  The tick scheduler of the clock: from the offset-corrected wall-clock time
  it predicts the next tick on a fixed 250 ms grid, the grid-aligned nominal
  instant of that tick and how long to sleep until it; between ticks it
  drains pending offset updates, keeping only the newest.

  Timestamps and durations are integers counting nanoseconds since the Unix
  epoch (the resolution of the clock library); waits are whole microseconds.
 */
module Ticking {
  import opened Arith

  /** The time between screen updates, in microseconds. */
  const PERIOD_US: int := 250_000

  /** Microseconds since the epoch of a timestamp: rounds down, also before the epoch. */
  function TimestampMicros(t: int): (us: int)
    ensures us * NANOS_PER_MICRO <= t < us * NANOS_PER_MICRO + NANOS_PER_MICRO
  {
    t / NANOS_PER_MICRO
  }

  /** What `predict_next` returns: nominal tick instant (ns), tick number, wait (µs). */
  datatype Prediction = Prediction(tNominal: int, tickId: int, wait: nat)

  /** The instant a tick stands for: its number of periods since the epoch, in ns. */
  function GridInstant(tickId: int): int {
    tickId * PERIOD_US * NANOS_PER_MICRO
  }

  /**
    The next tick after `now` corrected by `avgOffset`. The quarter-period
    margin makes an instant just short of a grid point count as already past
    it, so the wait is never shorter than a quarter period. The tick number is
    the quotient rounded down; see `PredictNextAsWritten` for the truncating
    quotient of the program's 64-bit arithmetic.
   */
  function PredictNext(now: int, avgOffset: int): (p: Prediction)
    // the wait reaches the tick's grid point from the corrected instant ...
    ensures TimestampMicros(now + avgOffset) + p.wait == p.tickId * PERIOD_US
    // ... and is more than a quarter period and at most a period and a quarter
    ensures PERIOD_US / 4 < p.wait <= PERIOD_US + PERIOD_US / 4
    ensures p.tNominal == GridInstant(p.tickId)
  {
    var nowUs := TimestampMicros(now + avgOffset);
    var tickId := (nowUs + PERIOD_US + PERIOD_US / 4) / PERIOD_US;
    var stepUs := tickId * PERIOD_US - nowUs;
    Prediction(GridInstant(tickId), tickId, AsU64(stepUs))
  }

  /**
    The prediction as the Rust code computes it in 64 bits, with its
    truncating `/`. The step it casts to `u64` is always positive, so the
    cast is exact.
   */
  function PredictNextAsWritten(now: int, avgOffset: int): (p: Prediction)
    ensures TimestampMicros(now + avgOffset) + p.wait == p.tickId * PERIOD_US
    ensures p.tNominal == GridInstant(p.tickId)
    // more than a quarter period, but up to just short of two periods and a quarter
    ensures PERIOD_US / 4 < p.wait < 2 * PERIOD_US + PERIOD_US / 4
  {
    var nowUs := TimestampMicros(now + avgOffset);
    var tickId := TruncDiv(nowUs + PERIOD_US + PERIOD_US / 4, PERIOD_US);
    var stepUs := tickId * PERIOD_US - nowUs;
    Prediction(GridInstant(tickId), tickId, AsU64(stepUs))
  }

  /** From a period and a quarter before the epoch onwards, both computations agree. */
  lemma AsWrittenAgreesAfterEpoch(now: int, avgOffset: int)
    requires TimestampMicros(now + avgOffset) >= -(PERIOD_US + PERIOD_US / 4)
    ensures PredictNextAsWritten(now, avgOffset) == PredictNext(now, avgOffset)
  {
    TruncDivNonNeg(TimestampMicros(now + avgOffset) + PERIOD_US + PERIOD_US / 4, PERIOD_US);
  }

  /**
    Before that, truncation rounds the tick number up instead of down: at
    312 501 µs before the epoch the program waits 312 501 µs for tick 0, longer
    than a period and a quarter, passing over the grid point of tick -1. At
    562 499 µs before the epoch it waits 562 499 µs, the longest wait there is.
   */
  lemma AsWrittenOverlongWait()
    ensures PredictNextAsWritten(-312_501_000, 0).wait == 312_501
    ensures PredictNextAsWritten(-312_501_000, 0).wait > PERIOD_US + PERIOD_US / 4
    ensures PredictNext(-312_501_000, 0).tickId == -1
    ensures PredictNext(-312_501_000, 0).wait == 62_501
    ensures PredictNextAsWritten(-562_499_000, 0).wait == 2 * PERIOD_US + PERIOD_US / 4 - 1
  {
  }

  /** The contract of `PredictNext` pins the tick down: only one grid point lies in the wait window. */
  lemma PredictionUnique(now: int, avgOffset: int, k: int)
    requires PERIOD_US / 4 < k * PERIOD_US - TimestampMicros(now + avgOffset) <= PERIOD_US + PERIOD_US / 4
    ensures PredictNext(now, avgOffset).tickId == k
  {
  }

  /** The offset enters only through the corrected instant. */
  lemma OffsetOnlyThroughSum(now: int, avgOffset: int)
    ensures PredictNext(now, avgOffset) == PredictNext(now + avgOffset, 0)
  {
  }

  /** A later corrected instant never gets an earlier tick. */
  lemma TickMonotone(now1: int, off1: int, now2: int, off2: int)
    requires now1 + off1 <= now2 + off2
    ensures PredictNext(now1, off1).tickId <= PredictNext(now2, off2).tickId
  {
  }

  /**
    The corrected instants at which a call following tick `tickId` is on
    time: from a quarter period before that tick's grid point to three
    quarters after it.
   */
  predicate InWindow(correctedUs: int, tickId: int) {
    tickId * PERIOD_US - PERIOD_US / 4 <= correctedUs < tickId * PERIOD_US + 3 * PERIOD_US / 4
  }

  /** An on-time call yields exactly the following tick: no repeat and no gap. */
  lemma NextCallAdvances(now: int, avgOffset: int, now2: int, avgOffset2: int)
    requires InWindow(TimestampMicros(now2 + avgOffset2), PredictNext(now, avgOffset).tickId)
    ensures PredictNext(now2, avgOffset2).tickId == PredictNext(now, avgOffset).tickId + 1
    ensures PredictNext(now2, avgOffset2).tNominal
            == PredictNext(now, avgOffset).tNominal + PERIOD_US * NANOS_PER_MICRO
  {
  }

  /** Called exactly at a tick's nominal instant, the next tick is a full period away. */
  lemma AtNominalWaitsOnePeriod(now: int, avgOffset: int)
    ensures PredictNext(PredictNext(now, avgOffset).tNominal, 0).tickId
            == PredictNext(now, avgOffset).tickId + 1
    ensures PredictNext(PredictNext(now, avgOffset).tNominal, 0).wait == PERIOD_US
  {
  }

  /** The three instants of the unit test of `predict_next` (ticks are compared modulo 40 there). */
  lemma BasePredictionVectors()
    ensures PredictNext(0, 0) == Prediction(250_000_000, 1, 250_000)
    ensures PredictNext(281_149_151_157, 0).tNominal == 281_250_000_000
    ensures PredictNext(281_149_151_157, 0).tickId % 40 == 5
    ensures PredictNext(281_149_151_157, 0).wait == 100_849
    ensures PredictNext(977_739_743_751, 0).tNominal == 978_000_000_000
    ensures PredictNext(977_739_743_751, 0).tickId % 40 == 32
    ensures PredictNext(977_739_743_751, 0).wait == 260_257
  {
  }

  // ---------------------------------------------------------------------
  // The ticker's own state and its run loop, without the sleeps and sends

  /** An offset update from the estimator: the offset (ns) to add to the local clock. */
  datatype OffsetEvent = OffsetEvent(avgOffset: int)

  /** What each tick sends to the display. */
  datatype TickEvent = TickEvent(tNominal: int, tTransmit: int, tickId: int)

  /** The ticker's mutable state: the offset last received. */
  datatype Ticker = Ticker(avgOffset: int)

  /** A fresh ticker applies no correction until the first offset update arrives. */
  function NewTicker(): (t: Ticker)
    ensures forall now :: PredictNext(now, t.avgOffset) == PredictNext(now, 0)
  {
    Ticker(0)
  }

  /**
    Receives every pending offset update in queue order, each overwriting
    the last: the newest one wins, and an empty queue changes nothing.
   */
  function Drain(t: Ticker, pending: seq<OffsetEvent>): (r: Ticker)
    ensures |pending| == 0 ==> r == t
    ensures |pending| > 0 ==> r.avgOffset == pending[|pending| - 1].avgOffset
    decreases |pending|
  {
    if |pending| == 0 then t
    else Drain(Ticker(pending[0].avgOffset), pending[1..])
  }

  /** Draining in two batches ends where draining everything at once does. */
  lemma DrainBatches(t: Ticker, a: seq<OffsetEvent>, b: seq<OffsetEvent>)
    ensures Drain(Drain(t, a), b) == Drain(t, a + b)
  {
    if |b| > 0 {
      assert (a + b)[|a + b| - 1] == b[|b| - 1];
    } else {
      assert a + b == a;
    }
  }

  /** One pass of the run loop: the clock read before the sleep, the one after it, and the updates then pending. */
  datatype Wake = Wake(now: int, transmit: int, pending: seq<OffsetEvent>)

  /** Predict and emit one tick from the cached offset, then drain the pending updates. */
  function Iterate(t: Ticker, w: Wake): (r: (Ticker, TickEvent))
    ensures r.1.tTransmit == w.transmit
    ensures r.1.tNominal == GridInstant(r.1.tickId)
    ensures PERIOD_US / 4 < r.1.tickId * PERIOD_US - TimestampMicros(w.now + t.avgOffset)
                          <= PERIOD_US + PERIOD_US / 4
    ensures |w.pending| > 0 ==> r.0.avgOffset == w.pending[|w.pending| - 1].avgOffset
    ensures |w.pending| == 0 ==> r.0 == t
  {
    var p := PredictNext(w.now, t.avgOffset);
    (Drain(t, w.pending), TickEvent(p.tNominal, w.transmit, p.tickId))
  }

  /** The ticks emitted by successive passes of the run loop. */
  function Run(t: Ticker, wakes: seq<Wake>): (events: seq<TickEvent>)
    ensures |events| == |wakes|
    // every emitted tick is on the grid and carries its own pass's transmit time
    ensures forall i :: 0 <= i < |events| ==>
              events[i].tNominal == GridInstant(events[i].tickId) && events[i].tTransmit == wakes[i].transmit
    // the first pass predicts from the offset the ticker started with
    ensures |wakes| > 0 ==>
              PERIOD_US / 4 < events[0].tickId * PERIOD_US - TimestampMicros(wakes[0].now + t.avgOffset)
                            <= PERIOD_US + PERIOD_US / 4
    decreases |wakes|
  {
    if |wakes| == 0 then []
    else
      var (t', e) := Iterate(t, wakes[0]);
      [e] + Run(t', wakes[1..])
  }

  /** The state the ticker holds when pass `i` begins: every earlier pass has drained its updates. */
  function StateBefore(t: Ticker, wakes: seq<Wake>, i: nat): Ticker
    requires i <= |wakes|
  {
    if i == 0 then t else Drain(StateBefore(t, wakes, i - 1), wakes[i - 1].pending)
  }

  /** Starting one pass later from the first pass's drained state reaches the same states. */
  lemma {:induction false} StateBeforeShift(t: Ticker, wakes: seq<Wake>, i: nat)
    requires 1 <= i <= |wakes|
    ensures StateBefore(t, wakes, i) == StateBefore(Drain(t, wakes[0].pending), wakes[1..], i - 1)
  {
    if i > 1 {
      StateBeforeShift(t, wakes, i - 1);
      assert wakes[1..][i - 2] == wakes[i - 1];
    }
  }

  /** The first pass emits its tick, and the rest run from the state it leaves behind. */
  lemma RunCons(t: Ticker, wakes: seq<Wake>)
    requires |wakes| > 0
    ensures Run(t, wakes) == [Iterate(t, wakes[0]).1] + Run(Drain(t, wakes[0].pending), wakes[1..])
  {
  }

  /** Pass `i` predicts its tick from the offset held when that pass begins. */
  lemma {:induction false} RunAt(t: Ticker, wakes: seq<Wake>, i: nat)
    requires i < |wakes|
    ensures Run(t, wakes)[i] == Iterate(StateBefore(t, wakes, i), wakes[i]).1
    decreases i
  {
    RunCons(t, wakes);
    if i > 0 {
      RunAt(Drain(t, wakes[0].pending), wakes[1..], i - 1);
      StateBeforeShift(t, wakes, i);
      assert wakes[1..][i - 1] == wakes[i];
    }
  }

  /** Every pass, not only the first, predicts its tick from the offset held when that pass begins. */
  lemma RunEveryPass(t: Ticker, wakes: seq<Wake>)
    ensures forall i :: 0 <= i < |wakes| ==> Run(t, wakes)[i] == Iterate(StateBefore(t, wakes, i), wakes[i]).1
  {
    forall i | 0 <= i < |wakes|
      ensures Run(t, wakes)[i] == Iterate(StateBefore(t, wakes, i), wakes[i]).1
    {
      RunAt(t, wakes, i);
    }
  }

  /**
    Normal operation: every pass after the first reads a corrected clock
    (using the offset it has just drained) within the window of the tick
    the previous pass emitted.
   */
  ghost predicate OnSchedule(t: Ticker, wakes: seq<Wake>)
    decreases |wakes|
  {
    |wakes| <= 1 ||
    (var (t', e) := Iterate(t, wakes[0]);
     InWindow(TimestampMicros(wakes[1].now + t'.avgOffset), e.tickId) && OnSchedule(t', wakes[1..]))
  }

  /** Under normal operation tick numbers rise by exactly one and nominal instants by exactly one period. */
  lemma {:induction false} RunConsecutive(t: Ticker, wakes: seq<Wake>)
    requires OnSchedule(t, wakes)
    ensures forall i :: 0 < i < |wakes| ==> Run(t, wakes)[i].tickId == Run(t, wakes)[i - 1].tickId + 1
    ensures forall i :: 0 < i < |wakes| ==>
              Run(t, wakes)[i].tNominal == Run(t, wakes)[i - 1].tNominal + PERIOD_US * NANOS_PER_MICRO
    decreases |wakes|
  {
    if |wakes| > 1 {
      var (t', e) := Iterate(t, wakes[0]);
      RunConsecutive(t', wakes[1..]);
      var rest := Run(t', wakes[1..]);
      assert Run(t, wakes) == [e] + rest;
      NextCallAdvances(wakes[0].now, t.avgOffset, wakes[1].now, t'.avgOffset);
      assert rest[0] == Iterate(t', wakes[1]).1;
      assert wakes[1..][0] == wakes[1];
    }
  }
}
