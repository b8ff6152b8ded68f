/**
  The exponentially smoothed moving average of the statistics file, over
  exact reals (an abstraction of the program's 64-bit floating point).

  Besides the weighted sum of the samples the filter keeps the sum of their
  weights, so that during warm-up the average is a properly normalised mean
  rather than one biased toward the zero it starts from.
 */
module ExpoAverage {
  import opened Arith
  import opened Wrappers
  import opened RealAlgebra

  /** `x` to the natural power `n`. */
  function Pow(x: real, n: nat): real {
    if n == 0 then 1.0 else x * Pow(x, n - 1)
  }

  /** A positive power of a number in (0, 1) stays in (0, 1). */
  lemma {:induction false} PowBetween(x: real, n: nat)
    requires 0.0 < x < 1.0 && n > 0
    ensures 0.0 < Pow(x, n) < 1.0
  {
    if n > 1 {
      PowBetween(x, n - 1);
      MulPos(x, Pow(x, n - 1));
      MulLess(x, 1.0, Pow(x, n - 1));
    }
  }

  /** Smoothing factor `eps`, the weighted sum of the samples, and the sum of their weights. */
  datatype ExpoAvg = ExpoAvg(eps: real, numerator: real, denominator: real)

  /** What every filter reachable from `NewExpoAvg` satisfies. */
  predicate Valid(f: ExpoAvg) {
    0.0 < f.eps < 1.0 && 0.0 <= f.denominator < 1.0 && (f.denominator == 0.0 ==> f.numerator == 0.0)
  }

  /** A filter with smoothing timescale 1/eps; the constructor asserts 0 < eps < 1. */
  function NewExpoAvg(eps: real): (f: ExpoAvg)
    requires 0.0 < eps < 1.0
    ensures Valid(f) && f.eps == eps
    ensures Query(f).None?
  {
    ExpoAvg(eps, 0.0, 0.0)
  }

  /** The current average: absent until the weights sum to something. */
  function Query(f: ExpoAvg): (r: Option<real>)
    ensures r.None? <==> f.denominator == 0.0
    ensures r.Some? ==> r.value * f.denominator == f.numerator
  {
    if f.denominator != 0.0 then Some(f.numerator / f.denominator) else None
  }

  /** One step of the running weight stays in [eps, 1), and the missing weight shrinks by 1 - eps. */
  lemma DenominatorStep(e: real, d: real)
    requires 0.0 < e < 1.0 && 0.0 <= d < 1.0
    ensures e <= d + e * (1.0 - d) < 1.0
    ensures 1.0 - (d + e * (1.0 - d)) == (1.0 - e) * (1.0 - d)
  {
    MulNonNeg(d, 1.0 - e);
    MulPos(1.0 - e, 1.0 - d);
  }

  /**
    The filter state after one sample. Each sum moves the fraction eps of
    the way toward its target; read as exponential forgetting, the old
    weighted sum and the weight still missing both decay by the factor
    1 - eps, and the sample enters with weight eps.
   */
  function Update(f: ExpoAvg, x: real): (g: ExpoAvg)
    ensures g.eps == f.eps
    ensures g.numerator == (1.0 - f.eps) * f.numerator + f.eps * x
    ensures 1.0 - g.denominator == (1.0 - f.eps) * (1.0 - f.denominator)
  {
    ExpoAvg(f.eps, f.numerator + f.eps * (x - f.numerator), f.denominator + f.eps * (1.0 - f.denominator))
  }

  /** An update keeps the filter valid, and afterwards the weights sum to at least eps. */
  lemma UpdateValid(f: ExpoAvg, x: real)
    requires Valid(f)
    ensures Valid(Update(f, x)) && Update(f, x).denominator >= f.eps
  {
    var g := Update(f, x);
    DenominatorStep(f.eps, f.denominator);
    assert g.denominator == f.denominator + f.eps * (1.0 - f.denominator);
    assert g.denominator >= f.eps;
  }

  /** Where the average after one sample lies. */
  lemma UpdateBetween(f: ExpoAvg, x: real)
    requires Valid(f)
    ensures f.denominator == 0.0 ==> Update(f, x).numerator / Update(f, x).denominator == x
    ensures f.denominator != 0.0 ==>
              Min(f.numerator / f.denominator, x) <= Update(f, x).numerator / Update(f, x).denominator
              <= Max(f.numerator / f.denominator, x)
  {
    var g := Update(f, x);
    UpdateValid(f, x);
    var avg := g.numerator / g.denominator;
    assert avg * g.denominator == g.numerator;
    if f.denominator != 0.0 {
      var m := f.numerator / f.denominator;
      var a := f.denominator * (1.0 - f.eps);
      MulNonNeg(f.denominator, 1.0 - f.eps);
      assert f.numerator == m * f.denominator;
      assert g.numerator == m * a + x * f.eps;
      assert g.denominator == a + f.eps;
      WeightedMeanBetween(a, f.eps, m, x, avg);
    }
  }

  /**
    Folds in one sample and returns the new filter with its new average.
   */
  function AddSample(f: ExpoAvg, x: real): (r: (ExpoAvg, real))
    requires Valid(f)
    ensures Valid(r.0) && r.0.eps == f.eps && r.0.denominator > 0.0
    // the new state is one step of the smoothing recurrence
    ensures r.0 == Update(f, x)
    // the returned average is what a query right after reports
    ensures Query(r.0) == Some(r.1)
    // the weight still missing shrinks by the factor 1 - eps
    ensures 1.0 - r.0.denominator == (1.0 - f.eps) * (1.0 - f.denominator)
    // the new average weights the old one by its decayed weight and the sample by eps
    ensures Query(f).Some? ==>
              r.1 * r.0.denominator == (1.0 - f.eps) * f.denominator * Query(f).value + f.eps * x
    // the first sample is its own average; later ones pull the average toward them
    ensures Query(f).None? ==> r.1 == x
    ensures Query(f).Some? ==> Min(Query(f).value, x) <= r.1 <= Max(Query(f).value, x)
  {
    var g := Update(f, x);
    UpdateValid(f, x);
    UpdateBetween(f, x);
    (g, g.numerator / g.denominator)
  }

  /** The filter after folding in every sample of `xs`, first to last. */
  function Samples(f: ExpoAvg, xs: seq<real>): (r: ExpoAvg)
    ensures r.eps == f.eps
    decreases |xs|
  {
    if |xs| == 0 then f else Samples(Update(f, xs[0]), xs[1..])
  }

  /** Folding in samples keeps the filter valid; after at least one the average is defined. */
  lemma {:induction false} SamplesValid(f: ExpoAvg, xs: seq<real>)
    requires Valid(f)
    ensures Valid(Samples(f, xs))
    ensures |xs| > 0 ==> Samples(f, xs).denominator > 0.0
    decreases |xs|
  {
    if |xs| > 0 {
      UpdateValid(f, xs[0]);
      SamplesValid(Update(f, xs[0]), xs[1..]);
    }
  }

  /** Folding in one more sample at the end is one more step of the recurrence: the samples go in first to last. */
  lemma {:induction false} SamplesLast(f: ExpoAvg, xs: seq<real>, x: real)
    ensures Samples(f, xs + [x]) == Update(Samples(f, xs), x)
    decreases |xs|
  {
    if |xs| == 0 {
      assert xs + [x] == [x];
    } else {
      assert (xs + [x])[0] == xs[0] && (xs + [x])[1..] == xs[1..] + [x];
      SamplesLast(Update(f, xs[0]), xs[1..], x);
    }
  }

  /** Samples folded in two batches end where all of them at once do. */
  lemma {:induction false} SamplesConcat(f: ExpoAvg, a: seq<real>, b: seq<real>)
    ensures Samples(f, a + b) == Samples(Samples(f, a), b)
    decreases |a|
  {
    if |a| == 0 {
      assert a + b == b;
    } else {
      assert (a + b)[0] == a[0] && (a + b)[1..] == a[1..] + b;
      SamplesConcat(Update(f, a[0]), a[1..], b);
    }
  }

  /** The running weight: the weight missing decays by (1 - eps) per sample. */
  lemma {:induction false} DenominatorClosedForm(f: ExpoAvg, xs: seq<real>)
    ensures 1.0 - Samples(f, xs).denominator == (1.0 - f.denominator) * Pow(1.0 - f.eps, |xs|)
    decreases |xs|
  {
    if |xs| > 0 {
      DenominatorClosedForm(Update(f, xs[0]), xs[1..]);
    }
  }

  /**
    From a fresh filter the running weight after n > 0 samples is
    1 - (1 - eps)^n, strictly between 0 and 1: the average is defined, and
    dividing by this weight undoes the bias toward the initial zero.
   */
  lemma FreshFilterWeight(eps: real, xs: seq<real>)
    requires 0.0 < eps < 1.0 && |xs| > 0
    ensures Samples(NewExpoAvg(eps), xs).denominator == 1.0 - Pow(1.0 - eps, |xs|)
    ensures 0.0 < Samples(NewExpoAvg(eps), xs).denominator < 1.0
  {
    PowBetween(1.0 - eps, |xs|);
    DenominatorClosedForm(NewExpoAvg(eps), xs);
  }

  /** A constant input is a fixed point: every sample v added to an average of v (or to nothing) returns v. */
  lemma {:induction false} ConstantInput(f: ExpoAvg, v: real, n: nat)
    requires Valid(f)
    requires Query(f).None? || Query(f) == Some(v)
    ensures AddSample(f, v).1 == v
    ensures n > 0 ==> Query(Samples(f, seq(n, i => v))) == Some(v)
    decreases n
  {
    if n > 0 {
      var xs := seq(n, i => v);
      assert xs[0] == v && xs[1..] == seq(n - 1, i => v);
      assert AddSample(f, v).0 == Update(f, v);
      ConstantInput(Update(f, v), v, n - 1);
    }
  }

  /** One sample within [lo, hi] keeps an average within [lo, hi] there. */
  lemma StepBounded(f: ExpoAvg, x: real, lo: real, hi: real)
    requires Valid(f) && lo <= x <= hi
    requires Query(f).Some? ==> lo <= Query(f).value <= hi
    ensures Query(Update(f, x)).Some?
    ensures lo <= Query(Update(f, x)).value <= hi
  {
    assert AddSample(f, x).0 == Update(f, x);
  }

  /** The average never leaves the range of the samples. */
  lemma {:induction false} SamplesBounded(f: ExpoAvg, xs: seq<real>, lo: real, hi: real)
    requires Valid(f) && |xs| > 0
    requires Query(f).Some? ==> lo <= Query(f).value <= hi
    requires forall i :: 0 <= i < |xs| ==> lo <= xs[i] <= hi
    ensures Query(Samples(f, xs)).Some?
    ensures lo <= Query(Samples(f, xs)).value <= hi
    decreases |xs|
  {
    StepBounded(f, xs[0], lo, hi);
    UpdateValid(f, xs[0]);
    if |xs| > 1 {
      SamplesBounded(Update(f, xs[0]), xs[1..], lo, hi);
    }
  }

  /** Rounds to the nearest integer, halves away from zero (Rust's `f64::round`). */
  function Round(x: real): (r: int)
    ensures x >= 0.0 ==> x - 0.5 < r as real <= x + 0.5
    ensures x < 0.0 ==> x - 0.5 <= r as real < x + 0.5
  {
    if x >= 0.0 then (x + 0.5).Floor else -((0.5 - x).Floor)
  }

  /** The sample value standing in for a duration whose nanoseconds overflow 64 bits. */
  const DURATION_OVERFLOW_NS: real := 10_000_000_000.0

  /**
    Folds in a duration given in ns and returns the new average as a
    duration, rounded to whole nanoseconds and saturated to 64 bits.
   */
  function AddDuration(f: ExpoAvg, dt: int): (r: (ExpoAvg, int))
    requires Valid(f)
    ensures Valid(r.0) && r.0.eps == f.eps
    ensures InI64(r.1)
    // the duration enters as a sample of its nanoseconds, or as the 10 s stand-in when they overflow
    ensures InI64(dt) ==> r.0 == AddSample(f, dt as real).0
    ensures !InI64(dt) ==> r.0 == AddSample(f, DURATION_OVERFLOW_NS).0
    // the returned duration is the new average to the nearest nanosecond, saturated to 64 bits
    ensures var avg := Query(r.0).value;
            (InI64(Round(avg)) ==> -0.5 <= r.1 as real - avg <= 0.5)
            && (Round(avg) > I64_MAX ==> r.1 == I64_MAX)
            && (Round(avg) < I64_MIN ==> r.1 == I64_MIN)
    // an average that already is the duration returns it exactly
    ensures InI64(dt) && (Query(f).None? || Query(f) == Some(dt as real)) ==>
              r.1 == dt && Query(r.0) == Some(dt as real)
  {
    var x := if InI64(dt) then dt as real else DURATION_OVERFLOW_NS;
    var (f', avg) := AddSample(f, x);
    (f', SatI64(Round(avg)))
  }

  /** The filter after folding in every duration of `ds`, first to last. */
  function Durations(f: ExpoAvg, ds: seq<int>): (r: ExpoAvg)
    requires Valid(f)
    ensures Valid(r) && r.eps == f.eps
    decreases |ds|
  {
    if |ds| == 0 then f else Durations(AddDuration(f, ds[0]).0, ds[1..])
  }

  /** Any number of copies of one duration average to exactly that duration. */
  lemma {:induction false} ConstantDurations(f: ExpoAvg, d: int, n: nat)
    requires Valid(f) && InI64(d)
    requires Query(f).None? || Query(f) == Some(d as real)
    ensures AddDuration(f, d).1 == d
    ensures n > 0 ==> Query(Durations(f, seq(n, i => d))) == Some(d as real)
    decreases n
  {
    if n > 0 {
      var ds := seq(n, i => d);
      assert ds[0] == d && ds[1..] == seq(n - 1, i => d);
      ConstantDurations(AddDuration(f, d).0, d, n - 1);
    }
  }

  /** The unit test of `add_duration`: twenty samples of 67 µs average to 67 000 ns. */
  lemma DurationsVector()
    ensures Query(Durations(NewExpoAvg(0.1), seq(20, i => 67_000))) == Some(67_000.0)
  {
    ConstantDurations(NewExpoAvg(0.1), 67_000, 20);
  }
}
