/**
 The library's formula for the derivative of a Jacobi polynomial, a multiple of the polynomial of raised parameters, is
 the derivative: term by term on the written-out polynomial, and as the limit of difference quotients.
 */
module JacobiDerivative {
  import opened Reals
  import opened Jacobi
  import opened JacobiExpansion

  // ----- term by term -----

  /** The derivative of the k-th power. */
  function PowerSlope(y: real, k: nat): real {
    if k == 0 then 0.0 else Times(k as real, Power(y, k - 1))
  }

  /** The derivative of the first m terms of a series, term by term. */
  function Slope(c: nat -> int, y: real, m: nat): real {
    if m == 0 then 0.0 else Slope(c, y, m - 1) + Scaled(c(m - 1), PowerSlope(y, m - 1))
  }

  /** (n + a + b + 1) c(n - 1, k; a + 1, b + 1) = (k + 1) c(n, k + 1; a, b). */
  lemma RaisedCoefficient(n: nat, k: nat, a: nat, b: nat)
    requires n >= 1
    ensures (a + b + n + 1) * Coefficient(n - 1, k, a + 1, b + 1) == (k + 1) * Coefficient(n, k + 1, a, b)
  {
    if k < n {
      var m := n + a + b + k + 1;
      ChooseLower(m, k);
      ChooseAbsorb(m, k + 1);
      assert Coefficient(n - 1, k, a + 1, b + 1) == Choose(n + a, n - 1 - k) * Choose(m, k);
      assert Coefficient(n, k + 1, a, b) == Choose(n + a, n - 1 - k) * Choose(m, k + 1);
      Factor(Choose(n + a, n - 1 - k), Choose(m, k), Choose(m, k + 1), a + b + n + 1, k + 1);
    }
  }

  lemma Factor(x: int, y: int, z: int, p: int, q: int)
    requires p * y == q * z
    ensures p * (x * y) == q * (x * z)
  {
    assert p * (x * y) == x * (p * y) && q * (x * z) == x * (q * z);
  }

  /** The next term of the raised series is the next term of the slope. */
  lemma RaisedTerms(n: nat, k: nat, a: nat, b: nat, y: real)
    requires n >= 1
    ensures Times(Term(Coefficients(n - 1, a + 1, b + 1), y, k), (a + b + n + 1) as real)
         == Scaled(Coefficients(n, a, b)(k + 1), PowerSlope(y, k + 1))
  {
    RaisedCoefficient(n, k, a, b);
    RaisedTerm(a + b + n + 1, Coefficient(n - 1, k, a + 1, b + 1), k + 1, Coefficient(n, k + 1, a, b), Power(y, k));
  }

  lemma {:induction false} SlopeOfSeries(d: nat -> int, c: nat -> int, f: real, y: real, m: nat)
    requires forall k: nat :: Times(Term(d, y, k), f) == Scaled(c(k + 1), PowerSlope(y, k + 1))
    ensures Times(Series(d, y, m), f) == Slope(c, y, m + 1)
  {
    if m == 0 {
      assert Slope(c, y, 1) == Slope(c, y, 0) + Scaled(c(0), 0.0);
    } else {
      SlopeOfSeries(d, c, f, y, m - 1);
      TimesSum(Series(d, y, m - 1), Term(d, y, m - 1), f);
    }
  }

  lemma SlopeOfRaised(n: nat, a: nat, b: nat, y: real, m: nat)
    requires n >= 1
    ensures Times(Series(Coefficients(n - 1, a + 1, b + 1), y, m), (a + b + n + 1) as real)
            == Slope(Coefficients(n, a, b), y, m + 1)
  {
    var d, c, f := Coefficients(n - 1, a + 1, b + 1), Coefficients(n, a, b), (a + b + n + 1) as real;
    forall k: nat
      ensures Times(Term(d, y, k), f) == Scaled(c(k + 1), PowerSlope(y, k + 1))
    {
      RaisedTerms(n, k, a, b, y);
    }
    SlopeOfSeries(d, c, f, y, m);
  }

  lemma RaisedTerm(s: int, c: int, m: int, d: int, p: real)
    requires s * c == m * d
    ensures Times(Scaled(c, p), s as real) == Scaled(d, Times(m as real, p))
  {
    ProductAsReal(s, c);
    ProductAsReal(m, d);
    assert (s as real * c as real) * p == (m as real * d as real) * p;
  }

  lemma TimesSum(x: real, y: real, f: real)
    ensures Times(x + y, f) == Times(x, f) + Times(y, f)
  {
  }

  /** The library's derivative is half the term-by-term derivative in y = (x - 1) / 2. */
  lemma DerivativeTermByTerm(n: nat, a: nat, b: nat, x: real, y: real)
    requires a >= b && x == 1.0 + 2.0 * y
    ensures Derivative(n, a, b, x) == Slope(Coefficients(n, a, b), y, n + 1) / 2.0
  {
    if n == 0 {
      assert Slope(Coefficients(0, a, b), y, 1)
             == Slope(Coefficients(0, a, b), y, 0) + Scaled(Coefficients(0, a, b)(0), 0.0);
    } else {
      Expansion(n - 1, a + 1, b + 1, x, y);
      SlopeOfRaised(n, a, b, y, n);
      HalfTimes(Value(n - 1, a + 1, b + 1, x), (a + b + n + 1) as real);
    }
  }

  lemma HalfTimes(v: real, f: real)
    ensures Times(v, f / 2.0) == Times(v, f) / 2.0
  {
  }

  // ----- the limit of difference quotients -----

  function Abs(x: real): real {
    if x < 0.0 then -x else x
  }

  /** A value, its slope and a rest, over a step g. */
  function Taylor(g: real, p: real, slope: real, rest: real): real {
    p + g * slope + g * g * rest
  }

  function NextRest(y: real, g: real, slope: real, rest: real): real {
    Times(rest, y + g) + slope
  }

  /** What is left of the k-th power at y + g beyond the linear part, divided by g squared. */
  function PowerRest(y: real, g: real, k: nat): real {
    if k == 0 then 0.0 else NextRest(y, g, PowerSlope(y, k - 1), PowerRest(y, g, k - 1))
  }

  lemma {:induction false} PowerTaylor(y: real, g: real, k: nat)
    ensures Power(y + g, k) == Taylor(g, Power(y, k), PowerSlope(y, k), PowerRest(y, g, k))
  {
    if k > 0 {
      PowerTaylor(y, g, k - 1);
      NextSlope(y, k);
      TaylorStep(y, g, Power(y, k - 1), PowerSlope(y, k - 1), PowerRest(y, g, k - 1));
    }
  }

  lemma NextSlope(y: real, k: nat)
    requires k > 0
    ensures PowerSlope(y, k) == Power(y, k - 1) + Times(y, PowerSlope(y, k - 1))
  {
    if k > 1 {
      assert y * ((k - 1) as real * Power(y, k - 2)) == (k - 1) as real * (y * Power(y, k - 2));
    }
  }

  lemma TaylorStep(y: real, g: real, p: real, slope: real, rest: real)
    ensures Times(y + g, Taylor(g, p, slope, rest))
            == Taylor(g, Times(y, p), p + Times(y, slope), NextRest(y, g, slope, rest))
  {
    assert (y + g) * (p + g * slope + g * g * rest)
        == y * p + g * p + y * (g * slope) + g * (g * slope) + (y + g) * (g * g * rest);
    assert (y + g) * (g * g * rest) == g * g * (rest * (y + g));
    assert y * (g * slope) == g * (y * slope) && g * (g * slope) == g * g * slope;
  }

  function NextBound(y: real, slope: real, bound: real): real {
    Times(bound, Abs(y) + 1.0) + Abs(slope)
  }

  /** A bound of the rest for all |g| <= 1. */
  function PowerBound(y: real, k: nat): real {
    if k == 0 then 0.0 else NextBound(y, PowerSlope(y, k - 1), PowerBound(y, k - 1))
  }

  lemma {:induction false} PowerRestBounded(y: real, g: real, k: nat)
    requires Abs(g) <= 1.0
    ensures Abs(PowerRest(y, g, k)) <= PowerBound(y, k)
  {
    if k > 0 {
      PowerRestBounded(y, g, k - 1);
      NextRestBounded(y, g, PowerSlope(y, k - 1), PowerRest(y, g, k - 1), PowerBound(y, k - 1));
    }
  }

  lemma NextRestBounded(y: real, g: real, slope: real, rest: real, bound: real)
    requires Abs(g) <= 1.0 && Abs(rest) <= bound
    ensures Abs(NextRest(y, g, slope, rest)) <= NextBound(y, slope, bound)
  {
    ProductBounded(rest, y + g, bound, Abs(y) + 1.0);
  }

  lemma ProductBounded(x: real, y: real, u: real, v: real)
    requires Abs(x) <= u && Abs(y) <= v
    ensures Abs(Times(x, y)) <= Times(u, v)
  {
    assert Abs(x * y) == Abs(x) * Abs(y);
    assert Abs(x) * Abs(y) <= u * Abs(y) <= u * v;
  }

  function SeriesRest(c: nat -> int, y: real, g: real, m: nat): real {
    if m == 0 then 0.0 else SeriesRest(c, y, g, m - 1) + Scaled(c(m - 1), PowerRest(y, g, m - 1))
  }

  function SeriesBound(c: nat -> int, y: real, m: nat): real {
    if m == 0 then 0.0 else SeriesBound(c, y, m - 1) + Scaled(Magnitude(c(m - 1)), PowerBound(y, m - 1))
  }

  function Magnitude(c: int): int {
    if c < 0 then -c else c
  }

  lemma {:induction false} SeriesTaylor(c: nat -> int, y: real, g: real, m: nat)
    ensures Series(c, y + g, m) == Taylor(g, Series(c, y, m), Slope(c, y, m), SeriesRest(c, y, g, m))
  {
    if m > 0 {
      var k := m - 1;
      SeriesTaylor(c, y, g, k);
      PowerTaylor(y, g, k);
      TermTaylor(c(k), g, Power(y, k), PowerSlope(y, k), PowerRest(y, g, k));
      SumTaylor(g, Series(c, y, k), Slope(c, y, k), SeriesRest(c, y, g, k),
                Term(c, y, k), Scaled(c(k), PowerSlope(y, k)), Scaled(c(k), PowerRest(y, g, k)));
    }
  }

  lemma TermTaylor(c: int, g: real, p: real, slope: real, rest: real)
    ensures Scaled(c, Taylor(g, p, slope, rest)) == Taylor(g, Scaled(c, p), Scaled(c, slope), Scaled(c, rest))
  {
    var x := c as real;
    assert x * (p + g * slope + g * g * rest) == x * p + x * (g * slope) + x * (g * g * rest);
    assert x * (g * slope) == g * (x * slope) && x * (g * g * rest) == g * g * (x * rest);
  }

  lemma SumTaylor(g: real, p: real, slope: real, rest: real, p': real, slope': real, rest': real)
    ensures Taylor(g, p, slope, rest) + Taylor(g, p', slope', rest') == Taylor(g, p + p', slope + slope', rest + rest')
  {
  }

  lemma {:induction false} SeriesRestBounded(c: nat -> int, y: real, g: real, m: nat)
    requires Abs(g) <= 1.0
    ensures Abs(SeriesRest(c, y, g, m)) <= SeriesBound(c, y, m)
  {
    if m > 0 {
      SeriesRestBounded(c, y, g, m - 1);
      PowerRestBounded(y, g, m - 1);
      ScaledBounded(c(m - 1), PowerRest(y, g, m - 1), PowerBound(y, m - 1));
    }
  }

  lemma ScaledBounded(c: int, r: real, bound: real)
    requires Abs(r) <= bound
    ensures Abs(Scaled(c, r)) <= Scaled(Magnitude(c), bound)
  {
    ProductBounded(c as real, r, Magnitude(c) as real, bound);
  }

  /** How far the difference quotients at x can be off, per unit of the step. */
  function QuotientBound(n: nat, a: nat, b: nat, x: real): real {
    SeriesBound(Coefficients(n, a, b), (x - 1.0) / 2.0, n + 1) / 4.0
  }

  /** Over a step h a value changes by h times the slope, up to a multiple of h squared. */
  predicate Changes(before: real, after: real, h: real, slope: real, bound: real) {
    Abs(after - before - h * slope) <= bound * (h * h)
  }

  lemma HalfStep(h: real, before: real, after: real, slope: real, rest: real, bound: real)
    requires Abs(rest) <= bound && after == Taylor(h / 2.0, before, slope, rest)
    ensures Changes(before, after, h, slope / 2.0, bound / 4.0)
  {
    assert h / 2.0 * (h / 2.0) * rest == (h * h) * (rest / 4.0);
    assert h / 2.0 * slope == h * (slope / 2.0);
    assert h * h >= 0.0;
    ProductBounded(h * h, rest / 4.0, h * h, bound / 4.0);
  }

  /**
   For all n and a >= b, at every x: over a step h the polynomial changes by h times the library's derivative, up to an
   error of at most a constant times h squared; so the difference quotients tend to that derivative.
   */
  lemma DerivativeIsLimit(n: nat, a: nat, b: nat, x: real, h: real)
    requires a >= b && Abs(h) <= 1.0
    ensures Changes(Value(n, a, b, x), Value(n, a, b, x + h), h, Derivative(n, a, b, x), QuotientBound(n, a, b, x))
  {
    var c, y, g := Coefficients(n, a, b), (x - 1.0) / 2.0, h / 2.0;
    Expansion(n, a, b, x, y);
    Expansion(n, a, b, x + h, y + g);
    DerivativeTermByTerm(n, a, b, x, y);
    SeriesTaylor(c, y, g, n + 1);
    SeriesRestBounded(c, y, g, n + 1);
    HalfStep(h, Value(n, a, b, x), Value(n, a, b, x + h), Slope(c, y, n + 1), SeriesRest(c, y, g, n + 1),
             SeriesBound(c, y, n + 1));
  }
}
