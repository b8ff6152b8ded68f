/**
  The earlier tick scheduler (`Ticker::wait_next` of the library root): the
  same 250 ms grid, but no offset correction and no anti-jitter margin, and
  the nominal instant is formed by adding the wait to the uncorrected clock
  reading. The sleep itself is not modelled; its length is returned.
 */
module LegacyTicking {
  import opened Arith
  import opened Ticking

  /** Nominal instant (ns), tick number, and the wait handed to the sleep (µs). */
  datatype LegacyTick = LegacyTick(tNominal: int, tickId: int, sleep: nat)

  /** The next grid point strictly after `now`, rounding the quotient down. */
  function WaitNext(now: int): (r: LegacyTick)
    // the sleep reaches the tick's grid point and is at least 1 µs and at most one period
    ensures TimestampMicros(now) + r.sleep == r.tickId * PERIOD_US
    ensures 1 <= r.sleep <= PERIOD_US
    ensures r.tNominal == now + r.sleep * NANOS_PER_MICRO
    // on the grid up to the sub-microsecond part of the clock reading
    ensures r.tNominal == GridInstant(r.tickId) + now % NANOS_PER_MICRO
  {
    var nowUs := TimestampMicros(now);
    var tickId := (nowUs + PERIOD_US) / PERIOD_US;
    var stepUs := tickId * PERIOD_US - nowUs;
    LegacyTick(now + stepUs * NANOS_PER_MICRO, tickId, AsU64(stepUs))
  }

  /**
    The computation with Rust's truncating `/`, as the program does it in 64
    bits. The step it casts to `u64` is always positive, so the cast is exact.
   */
  function WaitNextAsWritten(now: int): (r: LegacyTick)
    ensures TimestampMicros(now) + r.sleep == r.tickId * PERIOD_US
    // at least 1 µs, but up to just short of two periods
    ensures 1 <= r.sleep < 2 * PERIOD_US
    ensures r.tNominal == now + r.sleep * NANOS_PER_MICRO
  {
    var nowUs := TimestampMicros(now);
    var tickId := TruncDiv(nowUs + PERIOD_US, PERIOD_US);
    var stepUs := tickId * PERIOD_US - nowUs;
    LegacyTick(now + stepUs * NANOS_PER_MICRO, tickId, AsU64(stepUs))
  }

  /** From one period before the epoch onwards, both computations agree. */
  lemma AsWrittenAgreesAfterEpoch(now: int)
    requires TimestampMicros(now) >= -PERIOD_US
    ensures WaitNextAsWritten(now) == WaitNext(now)
  {
    TruncDivNonNeg(TimestampMicros(now) + PERIOD_US, PERIOD_US);
  }

  /**
    One microsecond before the grid point one period ahead of the epoch, the
    program sleeps longer than a period; at 499 999 µs before the epoch it
    sleeps 499 999 µs, the longest sleep there is.
   */
  lemma AsWrittenOverlongSleep()
    ensures WaitNextAsWritten(-250_001_000).sleep == 250_001
    ensures WaitNextAsWritten(-250_001_000).sleep > PERIOD_US
    ensures WaitNext(-250_001_000).tickId == -1
    ensures WaitNext(-250_001_000).sleep == 1
    ensures WaitNextAsWritten(-499_999_000).sleep == 2 * PERIOD_US - 1
  {
  }

  /** On a grid point the next tick is the following one, a full period away: a boundary never fires twice. */
  lemma OnBoundaryAdvances(k: int)
    ensures WaitNext(GridInstant(k)).tickId == k + 1
    ensures WaitNext(GridInstant(k)).sleep == PERIOD_US
  {
  }

  /** Calling again at the returned nominal instant yields the following tick. */
  lemma AgainAtNominal(now: int)
    ensures WaitNext(WaitNext(now).tNominal).tickId == WaitNext(now).tickId + 1
  {
  }

  /** A later clock reading never gets an earlier tick. */
  lemma TickMonotone(now1: int, now2: int)
    requires now1 <= now2
    ensures WaitNext(now1).tickId <= WaitNext(now2).tickId
  {
  }

  /**
    The margin of the current scheduler is this rule applied a quarter period
    later: with no offset both pick the same tick.
   */
  lemma MarginIsQuarterPeriodShift(now: int)
    ensures PredictNext(now, 0).tickId == WaitNext(now + PERIOD_US / 4 * NANOS_PER_MICRO).tickId
  {
  }
}
