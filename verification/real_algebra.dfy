/**
  Small facts of real arithmetic that the estimators' proofs are built from.
  Products inside a lemma's conclusion are written `Mul(a, b)`, so that a
  caller's goal about `a * b` meets the conclusion term for term.
 */
module RealAlgebra {

  function Mul(a: real, b: real): real {
    a * b
  }

  function Min(a: real, b: real): real {
    if a <= b then a else b
  }

  function Max(a: real, b: real): real {
    if a >= b then a else b
  }

  lemma MulNonNeg(a: real, b: real)
    requires a >= 0.0 && b >= 0.0
    ensures Mul(a, b) >= 0.0
  {
  }

  lemma MulPos(a: real, b: real)
    requires a > 0.0 && b > 0.0
    ensures Mul(a, b) > 0.0
  {
  }

  lemma MulLess(a: real, b: real, c: real)
    requires a < b && c > 0.0
    ensures Mul(a, c) < Mul(b, c)
  {
    MulPos(b - a, c);
  }

  /** A positive factor does not change the sign of a product. */
  lemma SignOfFactor(p: real, q: real)
    requires q > 0.0
    ensures Mul(p, q) > 0.0 <==> p > 0.0
    ensures Mul(p, q) < 0.0 <==> p < 0.0
  {
    if p > 0.0 {
      MulPos(p, q);
    } else if p < 0.0 {
      MulPos(-p, q);
    }
  }

  /** If `r` is the mean of `m` and `x` under weights `a >= 0` and `b > 0`, it lies between them. */
  lemma WeightedMeanBetween(a: real, b: real, m: real, x: real, r: real)
    requires a >= 0.0 && b > 0.0
    requires r * (a + b) == m * a + x * b
    ensures Min(m, x) <= r <= Max(m, x)
  {
    assert Mul(r - m, a + b) == Mul(x - m, b);
    assert Mul(r - x, a + b) == Mul(m - x, a);
    SignOfFactor(r - m, a + b);
    SignOfFactor(r - x, a + b);
    if x > m {
      MulPos(x - m, b);
      MulNonNeg(x - m, a);
      assert Mul(r - x, a + b) <= 0.0;
    } else if x < m {
      MulPos(m - x, b);
      MulNonNeg(m - x, a);
      assert Mul(r - x, a + b) >= 0.0;
    } else {
      assert Mul(r - m, a + b) == 0.0;
    }
  }

  lemma DivPos(a: real, b: real)
    requires a > 0.0 && b > 0.0
    ensures a / b > 0.0
  {
    assert a / b * b == a;
    SignOfFactor(a / b, b);
  }

  lemma DivSum(a: real, b: real, c: real)
    requires c != 0.0
    ensures a / c + b / c == (a + b) / c
    ensures c / c == 1.0
  {
  }

  lemma DivDiv(m: real, s: real, w: real)
    requires s != 0.0 && w != 0.0
    ensures m / (s / w) == w * m / s
  {
  }
}
