/**
  The recursive Bayesian estimate of the clock offset: a scalar Gaussian
  belief (mean and variance) fused with one offset measurement at a time,
  each measurement's variance being the square of its precision floored at
  `MIN_PRECISION`. Over exact reals, an abstraction of the program's 32-bit
  floating point.
 */
module BayesEstimate {
  import opened Arith
  import opened RealAlgebra

  /** The least credible uncertainty of an offset measurement, in seconds. */
  const MIN_PRECISION: real := 0.000001

  /** Posterior mean offset (s) and its variance (s²). */
  datatype BayesOffset = BayesOffset(mean: real, variance: real)

  /** The variance of a measurement with the given one-sigma precision, the precision floored at `MIN_PRECISION`. */
  function ClampVariance(dt: real): (v: real)
    ensures v == Mul(Max(dt, MIN_PRECISION), Max(dt, MIN_PRECISION))
    ensures v >= MIN_PRECISION * MIN_PRECISION
  {
    if dt > MIN_PRECISION then dt * dt else MIN_PRECISION * MIN_PRECISION
  }

  /** A coarser precision never gives a smaller variance. */
  lemma ClampVarianceMonotone(a: real, b: real)
    requires a <= b
    ensures ClampVariance(a) <= ClampVariance(b)
  {
    var x, y := Max(a, MIN_PRECISION), Max(b, MIN_PRECISION);
    MulNonNeg(y - x, x);
    MulNonNeg(y - x, y);
    assert Mul(x, x) <= Mul(y, x) <= Mul(y, y);
  }

  /** A belief centred on zero offset with the uncertainty `dt0`. */
  function NewBayesOffset(dt0: real): (b: BayesOffset)
    ensures b.mean == 0.0
    ensures b.variance == ClampVariance(dt0)
    ensures b.variance > 0.0
  {
    BayesOffset(0.0, ClampVariance(dt0))
  }

  /** The floor applies to a zero precision; a coarse precision is squared. */
  lemma NewBayesOffsetVectors()
    ensures NewBayesOffset(0.0).variance == MIN_PRECISION * MIN_PRECISION
    ensures NewBayesOffset(-2.0).variance == MIN_PRECISION * MIN_PRECISION
    ensures NewBayesOffset(1.5).variance == 2.25
  {
  }

  /**
    Fuses the belief with an offset measured to the given precision, as two
    independent Gaussians. The variance is not floored afterwards.
   */
  function AddObservation(b: BayesOffset, offset: real, precision: real): (r: BayesOffset)
    requires b.variance > 0.0
    // the variance falls below both the prior's and the measurement's
    ensures 0.0 < r.variance < b.variance && r.variance < ClampVariance(precision)
    // the mean moves toward the offset but not past it
    ensures Min(b.mean, offset) <= r.mean <= Max(b.mean, offset)
  {
    FusionAlgebra(b.mean, b.variance, offset, ClampVariance(precision));
    Fuse(b.mean, b.variance, offset, ClampVariance(precision))
  }

  /** The update of `AddObservation` for prior mean `m`, prior variance `v`, offset `o` and measurement variance `w`. */
  function Fuse(m: real, v: real, o: real, w: real): BayesOffset
    requires v > 0.0 && w > 0.0
  {
    var varRat := v / w;
    DivPos(v, w);
    DivPos(1.0, varRat);
    BayesOffset(m / (1.0 + varRat) + o / (1.0 + 1.0 / varRat), v / (1.0 + varRat))
  }

  /**
    The fused belief in closed form: the variance is the product over the
    sum of the two variances, and the mean weights each estimate by the
    other's variance. Equivalently (information form) the precisions add,
    and so do the precision-weighted means.
   */
  lemma AddObservationClosedForm(b: BayesOffset, offset: real, precision: real)
    requires b.variance > 0.0
    ensures AddObservation(b, offset, precision).variance
            == b.variance * ClampVariance(precision) / (b.variance + ClampVariance(precision))
    ensures AddObservation(b, offset, precision).mean
            == (ClampVariance(precision) * b.mean + b.variance * offset) / (b.variance + ClampVariance(precision))
    ensures 1.0 / AddObservation(b, offset, precision).variance
            == 1.0 / b.variance + 1.0 / ClampVariance(precision)
    ensures AddObservation(b, offset, precision).mean / AddObservation(b, offset, precision).variance
            == b.mean / b.variance + offset / ClampVariance(precision)
  {
    FusionAlgebra(b.mean, b.variance, offset, ClampVariance(precision));
  }

  /** The algebra of `Fuse`. */
  lemma FusionAlgebra(m: real, v: real, o: real, w: real)
    requires v > 0.0 && w > 0.0
    ensures Fuse(m, v, o, w).variance == v * w / (v + w)
    ensures 0.0 < Fuse(m, v, o, w).variance < v && Fuse(m, v, o, w).variance < w
    ensures Fuse(m, v, o, w).mean == (w * m + v * o) / (v + w)
    ensures Min(m, o) <= Fuse(m, v, o, w).mean <= Max(m, o)
    ensures 1.0 / Fuse(m, v, o, w).variance == 1.0 / v + 1.0 / w
    ensures Fuse(m, v, o, w).mean / Fuse(m, v, o, w).variance == m / v + o / w
  {
    FusedVariance(v, w);
    FusedMean(m, v, o, w);
    WeightedMeanBetween(w, v, m, o, Fuse(m, v, o, w).mean);
    InfoMean(m, v, o, w);
  }

  lemma FusedVariance(v: real, w: real)
    requires v > 0.0 && w > 0.0
    ensures v / (1.0 + v / w) == v * w / (v + w)
    ensures 0.0 < v * w / (v + w) < v && v * w / (v + w) < w
    ensures 1.0 / (v * w / (v + w)) == 1.0 / v + 1.0 / w
  {
    DivSum(w, v, w);
    assert 1.0 + v / w == (v + w) / w;
    assert v / ((v + w) / w) == v * w / (v + w);
    MulPos(v, w);
    assert v * w / (v + w) < v by {
      assert Mul(v, w) < Mul(v, v + w);
    }
    assert v * w / (v + w) < w by {
      assert Mul(v, w) < Mul(v + w, w);
    }
    assert 1.0 / (v * w / (v + w)) == (v + w) / (v * w);
    DivSum(w, v, v * w);
  }

  lemma FusedMean(m: real, v: real, o: real, w: real)
    requires v > 0.0 && w > 0.0
    ensures m / (1.0 + v / w) + o / (1.0 + 1.0 / (v / w)) == (w * m + v * o) / (v + w)
    ensures ((w * m + v * o) / (v + w)) * (w + v) == m * w + o * v
  {
    assert m / (1.0 + v / w) == w * m / (v + w) by {
      DivSum(w, v, w);
      DivDiv(m, v + w, w);
    }
    assert o / (1.0 + 1.0 / (v / w)) == v * o / (v + w) by {
      DivSum(v, w, v);
      DivDiv(1.0, v, w);
      DivDiv(o, v + w, v);
    }
    assert w * m / (v + w) + v * o / (v + w) == (w * m + v * o) / (v + w) by {
      DivSum(w * m, v * o, v + w);
    }
  }

  lemma InfoMean(m: real, v: real, o: real, w: real)
    requires v > 0.0 && w > 0.0
    ensures ((w * m + v * o) / (v + w)) / (v * w / (v + w)) == m / v + o / w
  {
    MulPos(v, w);
    assert ((w * m + v * o) / (v + w)) / (v * w / (v + w)) == (w * m + v * o) / (v * w);
    DivSum(w * m, v * o, v * w);
    assert (w * m) / (v * w) == m / v;
    assert (v * o) / (v * w) == o / w;
  }

  /** When the prior is as uncertain as the measurement, the mean is their midpoint and the variance halves. */
  lemma EqualVariancesMidpoint(b: BayesOffset, offset: real, precision: real)
    requires b.variance > 0.0 && b.variance == ClampVariance(precision)
    ensures AddObservation(b, offset, precision).mean == (b.mean + offset) / 2.0
    ensures AddObservation(b, offset, precision).variance == b.variance / 2.0
  {
    AddObservationClosedForm(b, offset, precision);
    var v := b.variance;
    assert (v * b.mean + v * offset) / (v + v) == (b.mean + offset) / 2.0;
    assert v * v / (v + v) == v / 2.0;
  }

  /** One offset measurement: the offset (s) and its one-sigma precision (s). */
  datatype Observation = Observation(offset: real, precision: real)

  /** The belief after fusing every observation of `obs`, first to last. */
  function Observe(b: BayesOffset, obs: seq<Observation>): (r: BayesOffset)
    requires b.variance > 0.0
    ensures r.variance > 0.0
    ensures |obs| > 0 ==> r.variance < b.variance
    decreases |obs|
  {
    if |obs| == 0 then b
    else Observe(AddObservation(b, obs[0].offset, obs[0].precision), obs[1..])
  }

  /** The summed precision (inverse variance) of the observations. */
  function TotalPrecision(obs: seq<Observation>): real
    decreases |obs|
  {
    if |obs| == 0 then 0.0 else 1.0 / ClampVariance(obs[0].precision) + TotalPrecision(obs[1..])
  }

  /** The observations' offsets, each weighted by its precision, summed. */
  function WeightedOffsets(obs: seq<Observation>): real
    decreases |obs|
  {
    if |obs| == 0 then 0.0 else obs[0].offset / ClampVariance(obs[0].precision) + WeightedOffsets(obs[1..])
  }

  /**
    The sequential update agrees with fusing everything at once: the final
    precision is the prior's plus the observations', and the final mean is
    the precision-weighted mean of the prior mean and all offsets.
   */
  lemma {:induction false} ObserveInformationForm(b: BayesOffset, obs: seq<Observation>)
    requires b.variance > 0.0
    ensures 1.0 / Observe(b, obs).variance == 1.0 / b.variance + TotalPrecision(obs)
    ensures Observe(b, obs).mean / Observe(b, obs).variance == b.mean / b.variance + WeightedOffsets(obs)
    decreases |obs|
  {
    if |obs| > 0 {
      AddObservationClosedForm(b, obs[0].offset, obs[0].precision);
      ObserveInformationForm(AddObservation(b, obs[0].offset, obs[0].precision), obs[1..]);
    }
  }

  /** Observations no coarser than `MIN_PRECISION`, each adding the largest possible precision. */
  predicate AllFinest(obs: seq<Observation>) {
    forall i :: 0 <= i < |obs| ==> obs[i].precision <= MIN_PRECISION
  }

  lemma {:induction false} FinestTotalPrecision(obs: seq<Observation>)
    requires AllFinest(obs)
    ensures TotalPrecision(obs) == (|obs| as real) / (MIN_PRECISION * MIN_PRECISION)
    decreases |obs|
  {
    if |obs| > 0 {
      FinestTotalPrecision(obs[1..]);
    }
  }

  /**
    The variance has no floor: starting from the finest belief, n finest
    observations leave MIN_PRECISION² / (n + 1), which tends to zero.
   */
  lemma VarianceUnfloored(dt0: real, obs: seq<Observation>)
    requires dt0 <= MIN_PRECISION && AllFinest(obs)
    ensures Observe(NewBayesOffset(dt0), obs).variance
            == MIN_PRECISION * MIN_PRECISION / ((|obs| + 1) as real)
  {
    ObserveInformationForm(NewBayesOffset(dt0), obs);
    FinestTotalPrecision(obs);
    var v := Observe(NewBayesOffset(dt0), obs).variance;
    var m2 := MIN_PRECISION * MIN_PRECISION;
    assert 1.0 / v == 1.0 / m2 + (|obs| as real) / m2;
    InvertReciprocal(v, (|obs| + 1) as real, m2);
  }

  lemma InvertReciprocal(v: real, k: real, m: real)
    requires v > 0.0 && k > 0.0 && m > 0.0
    requires 1.0 / v == 1.0 / m + (k - 1.0) / m
    ensures v == m / k
  {
    assert 1.0 / v == k / m;
    assert v * k == m;
  }

  /** Rounds toward zero (Rust's float-to-integer `as`, before saturation). */
  function TruncReal(x: real): (r: int)
    ensures x >= 0.0 ==> r as real <= x < r as real + 1.0
    ensures x < 0.0 ==> r as real - 1.0 < x <= r as real
  {
    if x >= 0.0 then x.Floor else -((-x).Floor)
  }

  /** The mean offset as whole microseconds, rounded toward zero and saturated to 64 bits. */
  function AvgOffsetMicros(b: BayesOffset): (us: int)
    ensures InI64(us)
    // in range: the whole microseconds between zero and the exact value, less than 1 µs short of it
    ensures InI64(TruncReal(b.mean * 1_000_000.0)) ==>
              -1.0 < b.mean * 1_000_000.0 - us as real < 1.0
              && (b.mean >= 0.0 ==> 0.0 <= us as real <= b.mean * 1_000_000.0)
              && (b.mean <= 0.0 ==> b.mean * 1_000_000.0 <= us as real <= 0.0)
    // out of range: the nearer end of the 64-bit range
    ensures b.mean * 1_000_000.0 >= I64_MAX as real + 1.0 ==> us == I64_MAX
    ensures b.mean * 1_000_000.0 <= I64_MIN as real - 1.0 ==> us == I64_MIN
  {
    SatI64(TruncReal(b.mean * 1_000_000.0))
  }

  /** A mean that is a whole number of microseconds within 64 bits is reported exactly. */
  lemma AvgOffsetMicrosExact(us: int, variance: real)
    requires InI64(us)
    ensures AvgOffsetMicros(BayesOffset(us as real / 1_000_000.0, variance)) == us
  {
    assert us as real / 1_000_000.0 * 1_000_000.0 == us as real;
  }
}
