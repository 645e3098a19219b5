/** Jacobi polynomials: the rolling three-row recurrence, the recursive definition it computes, and values at x = 1. */
module Jacobi {
  import opened Reals

  // ----- three-term recurrences -----

  /** Degree 1, and the step from degrees i - 1 and i to i + 1. */
  datatype Recurrence = Recurrence(first: real -> real, a1: nat -> real, a2: nat -> real, a3: nat -> real,
                                   a4: nat -> real) {
    ghost predicate Valid() {
      forall i: nat | i >= 1 :: a1(i) != 0.0
    }

    function Step(i: nat, x: real, current: real, previous: real): real
      requires a1(i) != 0.0
    {
      ((a2(i) + a3(i) * x) * current - a4(i) * previous) / a1(i)
    }

    /** The value of degree n. */
    ghost function Value(n: nat, x: real): real
      requires Valid()
    {
      if n == 0 then 1.0
      else if n == 1 then first(x)
      else Step(n - 1, x, Value(n - 1, x), Value(n - 2, x))
    }
  }

  /** Rows i - 1 and i lie in the buffer at their degrees modulo 3. */
  ghost predicate Rolling(J: array2<real>, i: nat, r: Recurrence, x: seq<real>)
    requires r.Valid() && J.Length0 == 3 && J.Length1 == |x| && i >= 1
    reads J
  {
    RowHolds(J, i % 3, i, r, x) && RowHolds(J, (i - 1) % 3, i - 1, r, x)
  }

  /** One row of the buffer holds the values of degree n. */
  ghost predicate RowHolds(J: array2<real>, row: nat, n: nat, r: Recurrence, x: seq<real>)
    requires r.Valid() && row < J.Length0 && J.Length1 == |x|
    reads J
  {
    forall pt | 0 <= pt < |x| :: J[row, pt] == r.Value(n, x[pt])
  }

  /** The values at all points. */
  ghost predicate Values(P: seq<real>, n: nat, r: Recurrence, x: seq<real>)
    requires r.Valid()
  {
    |P| == |x| && forall pt | 0 <= pt < |x| :: P[pt] == r.Value(n, x[pt])
  }

  method Evaluate(n: nat, r: Recurrence, x: seq<real>) returns (P: array<real>)
    requires r.Valid()
    ensures fresh(P) && Values(P[..], n, r, x)
  {
    P := new real[|x|];
    if n == 0 {
      for pt := 0 to |x|
        invariant forall j | 0 <= j < pt :: P[j] == 1.0
      {
        P[pt] := 1.0;
      }
    } else if n == 1 {
      for pt := 0 to |x|
        invariant forall j | 0 <= j < pt :: P[j] == r.first(x[j])
      {
        P[pt] := r.first(x[pt]);
      }
    } else {
      var J := FirstRows(r, x);
      for i := 1 to n
        invariant Rolling(J, i, r, x)
      {
        Roll(J, i, r, x);
      }
      for pt := 0 to |x|
        invariant Rolling(J, n, r, x) && forall j | 0 <= j < pt :: P[j] == r.Value(n, x[j])
      {
        P[pt] := J[n % 3, pt];
      }
    }
  }

  method FirstRows(r: Recurrence, x: seq<real>) returns (J: array2<real>)
    requires r.Valid()
    ensures fresh(J) && J.Length0 == 3 && J.Length1 == |x| && Rolling(J, 1, r, x)
  {
    J := new real[3, |x|];
    for pt := 0 to |x|
      invariant forall j | 0 <= j < pt :: J[0, j] == 1.0 && J[1, j] == r.first(x[j])
    {
      J[0, pt], J[1, pt], J[2, pt] := 1.0, r.first(x[pt]), 0.0;
    }
  }

  lemma RowsApart(i: nat)
    requires i >= 1
    ensures (i + 1) % 3 != i % 3 && (i + 1) % 3 != (i - 1) % 3 && i % 3 != (i - 1) % 3
  {
  }

  /** The next row overwrites the one no longer needed. */
  method Roll(J: array2<real>, i: nat, r: Recurrence, x: seq<real>)
    requires r.Valid() && J.Length0 == 3 && J.Length1 == |x| && i >= 1 && Rolling(J, i, r, x)
    modifies J
    ensures Rolling(J, i + 1, r, x)
  {
    RowsApart(i);
    NextRow(J, (i + 1) % 3, i % 3, (i - 1) % 3, i, r, x);
  }

  method NextRow(J: array2<real>, next: nat, current: nat, previous: nat, i: nat, r: Recurrence, x: seq<real>)
    requires r.Valid() && J.Length0 == 3 && J.Length1 == |x| && i >= 1
    requires next < 3 && current < 3 && previous < 3 && next != current && next != previous
    requires RowHolds(J, current, i, r, x) && RowHolds(J, previous, i - 1, r, x)
    modifies J
    ensures RowHolds(J, next, i + 1, r, x) && RowHolds(J, current, i, r, x)
  {
    for pt := 0 to |x|
      invariant RowHolds(J, current, i, r, x) && RowHolds(J, previous, i - 1, r, x)
      invariant forall j | 0 <= j < pt :: J[next, j] == r.Value(i + 1, x[j])
    {
      J[next, pt] := r.Step(i, x[pt], J[current, pt], J[previous, pt]);
    }
  }

  /** A sequence that solves the recurrence at x = 1 is the sequence of values there. */
  lemma {:induction false} SolutionAtOne(r: Recurrence, target: nat -> real, n: nat)
    requires r.Valid() && target(0) == 1.0 && target(1) == r.first(1.0)
    requires forall i: nat | i >= 1 :: Solves(r, i, target(i - 1), target(i), target(i + 1))
    ensures r.Value(n, 1.0) == target(n)
  {
    if n >= 2 {
      SolutionAtOne(r, target, n - 1);
      SolutionAtOne(r, target, n - 2);
      var i := n - 1;
      assert Solves(r, i, target(i - 1), target(i), target(i + 1));
      SolvedStep(r, i, target(i - 1), target(i), target(i + 1));
    }
  }

  lemma SolvedStep(r: Recurrence, i: nat, previous: real, current: real, next: real)
    requires r.a1(i) != 0.0 && Solves(r, i, previous, current, next)
    ensures r.Step(i, 1.0, current, previous) == next
  {
    assert r.a2(i) + r.a3(i) * 1.0 == r.a2(i) + r.a3(i);
    DivideBack(r.a1(i), next);
  }

  ghost predicate Solves(r: Recurrence, i: nat, previous: real, current: real, next: real) {
    (r.a2(i) + r.a3(i)) * current - r.a4(i) * previous == r.a1(i) * next
  }

  lemma DivideBack(x: real, y: real)
    requires x != 0.0
    ensures (x * y) / x == y
  {
  }

  // ----- Jacobi's coefficients -----

  function A1(i: int, a: int, b: int): int {
    2 * (i + 1) * (i + a + b + 1) * (2 * i + a + b)
  }

  function A2(i: int, a: int, b: int): int {
    (2 * i + a + b + 1) * (a * a - b * b)
  }

  function A3(i: int, a: int, b: int): int {
    (2 * i + a + b) * (2 * i + a + b + 1) * (2 * i + a + b + 2)
  }

  function A4(i: int, a: int, b: int): int {
    2 * (i + a) * (i + b) * (2 * i + a + b + 2)
  }

  /** The parameters are unsigned; a - b and a a - b b would wrap around for a < b. */
  function JacobiRecurrence(a: nat, b: nat): Recurrence
    requires a >= b
  {
    Recurrence((x: real) => ((a - b) as real + (a + b + 2) as real * x) / 2.0,
               (i: nat) => A1(i, a, b) as real, (i: nat) => A2(i, a, b) as real,
               (i: nat) => A3(i, a, b) as real, (i: nat) => A4(i, a, b) as real)
  }

  lemma A1Positive(i: nat, a: nat, b: nat)
    requires i >= 1
    ensures A1(i, a, b) > 0
  {
    var x, y, z := 2 * (i + 1), i + a + b + 1, 2 * i + a + b;
    assert x * y > 0;
    assert x * y * z > 0;
  }

  lemma JacobiIsValid(a: nat, b: nat)
    requires a >= b
    ensures JacobiRecurrence(a, b).Valid()
  {
    forall i: nat | i >= 1
      ensures JacobiRecurrence(a, b).a1(i) != 0.0
    {
      A1Positive(i, a, b);
    }
  }

  /** The Jacobi polynomial of degree n with parameters a and b. */
  ghost function Value(n: nat, a: nat, b: nat, x: real): real
    requires a >= b
  {
    JacobiIsValid(a, b);
    JacobiRecurrence(a, b).Value(n, x)
  }

  method JacobiPolynomial(n: nat, a: nat, b: nat, x: seq<real>) returns (P: array<real>)
    requires a >= b
    ensures fresh(P) && P.Length == |x| && forall pt | 0 <= pt < |x| :: P[pt] == Value(n, a, b, x[pt])
  {
    JacobiIsValid(a, b);
    P := Evaluate(n, JacobiRecurrence(a, b), x);
    assert forall pt | 0 <= pt < |x| :: P[pt] == P[..][pt];
  }

  /** The derivative of degree n as the library defines it: a multiple of degree n - 1 with both parameters raised. */
  ghost function Derivative(n: nat, a: nat, b: nat, x: real): real
    requires a >= b
  {
    if n == 0 then 0.0 else Times(Value(n - 1, a + 1, b + 1, x), (a + b + n + 1) as real / 2.0)
  }

  /** All entries times a factor, in place. */
  method ScaleAll(P: array<real>, factor: real)
    modifies P
    ensures forall j | 0 <= j < P.Length :: P[j] == Times(old(P[j]), factor)
  {
    for pt := 0 to P.Length
      invariant forall j | 0 <= j < P.Length :: P[j] == if j < pt then Times(old(P[j]), factor) else old(P[j])
    {
      P[pt] := Times(P[pt], factor);
    }
  }

  method JacobiPolynomialDerivative(n: nat, a: nat, b: nat, x: seq<real>) returns (dP: array<real>)
    requires a >= b
    ensures fresh(dP) && dP.Length == |x| && forall pt | 0 <= pt < |x| :: dP[pt] == Derivative(n, a, b, x[pt])
  {
    if n == 0 {
      dP := new real[|x|](_ => 0.0);
    } else if n == 1 {
      dP := new real[|x|](_ => (a + b + n + 1) as real / 2.0);
    } else {
      dP := JacobiPolynomial(n - 1, a + 1, b + 1, x);
      ScaleAll(dP, (a + b + n + 1) as real / 2.0);
    }
  }

  // ----- binomials -----

  /** Pascal's triangle. */
  function Choose(n: nat, k: nat): nat {
    if k == 0 then 1 else if n == 0 then 0 else Choose(n - 1, k - 1) + Choose(n - 1, k)
  }

  lemma {:induction false} ChooseNone(n: nat, k: nat)
    requires k > n
    ensures Choose(n, k) == 0
  {
    if n > 0 {
      ChooseNone(n - 1, k - 1);
      ChooseNone(n - 1, k);
    }
  }

  /** (k + 1) C(n, k + 1) = (n - k) C(n, k). */
  lemma {:induction false} ChooseNext(n: nat, k: nat)
    requires k <= n
    ensures (k + 1) * Choose(n, k + 1) == (n - k) * Choose(n, k)
  {
    if k == n {
      ChooseNone(n, n + 1);
    } else if k == 0 {
      ChooseNext(n - 1, 0);
    } else {
      ChooseNext(n - 1, k);
      ChooseNext(n - 1, k - 1);
      CombineRows(n, k, Choose(n - 1, k - 1), Choose(n - 1, k), Choose(n - 1, k + 1));
    }
  }

  lemma CombineRows(n: nat, k: nat, x: nat, y: nat, z: nat)
    requires (k + 1) * z == (n - 1 - k) * y && k * y == (n - k) * x
    ensures (k + 1) * (y + z) == (n - k) * (x + y)
  {
    assert (k + 1) * (y + z) == k * y + y + (k + 1) * z;
    assert (n - k) * (x + y) == (n - k) * x + (n - 1 - k) * y + y;
  }

  /** (n + 1) C(n + 1 + a, n + 1) = (n + 1 + a) C(n + a, n). */
  lemma ChooseRatio(n: nat, a: nat)
    ensures (n + 1) * Choose(n + 1 + a, n + 1) == (n + 1 + a) * Choose(n + a, n)
  {
    ChooseNext(n + a, n);
    PascalRatio(n, a, Choose(n + a, n), Choose(n + a, n + 1));
    assert Choose(n + 1 + a, n + 1) == Choose(n + a, n) + Choose(n + a, n + 1);
  }

  lemma PascalRatio(n: int, a: int, x: int, y: int)
    requires (n + 1) * y == a * x
    ensures (n + 1) * (x + y) == (n + 1 + a) * x
  {
  }

  // ----- values at x = 1 -----

  /** An identity between the coefficients, in u = a - b, v = a + b and s = 2i + a + b, times two. */
  lemma Quarter(s: int, u: int, v: int)
    ensures 2 * ((s + 1) * (u * v) + s * (s + 1) * (s + 2))
         == (s + 2 + u) * (s + 2 + v) * s + (s - v) * (s - u) * (s + 2)
  {
    assert (s + 2 + u) * (s + 2 + v) == (s + 2) * (s + 2) + (s + 2) * (u + v) + u * v;
    assert (s - v) * (s - u) == s * s - s * (u + v) + u * v;
    assert ((s + 2) * (s + 2) + (s + 2) * (u + v) + u * v) * s
           == (s + 2) * (s + 2) * s + (s + 2) * s * (u + v) + (u * v) * s;
    assert (s * s - s * (u + v) + u * v) * (s + 2) == (s + 2) * s * s - (s + 2) * s * (u + v) + (u * v) * (s + 2);
  }

  lemma Halves(x: int, y: int, z: int, w: int, s: int, u: int, v: int)
    requires 2 * x == s + 2 + u && 2 * y == s + 2 + v && 2 * z == s - v && 2 * w == s - u
    ensures (s + 1) * (u * v) + s * (s + 1) * (s + 2) == 2 * (y * s) * x + 2 * (w * (s + 2)) * z
  {
    Quarter(s, u, v);
    Quadruple(x, y, s);
    Quadruple(z, w, s + 2);
  }

  lemma Quadruple(x: int, y: int, s: int)
    ensures (2 * x) * (2 * y) * s == 2 * (2 * (y * s) * x)
  {
  }

  /** The coefficients factor so that the recurrence at x = 1 is that of the binomials. */
  lemma CoefficientsFactor(i: int, a: int, b: int) returns (k: int, m: int)
    ensures A1(i, a, b) == k * (i + 1) && A4(i, a, b) == m * (i + a)
    ensures A2(i, a, b) + A3(i, a, b) == k * (i + 1 + a) + m * i
  {
    var s := 2 * i + a + b;
    k, m := 2 * ((i + a + b + 1) * s), 2 * ((i + b) * (s + 2));
    FirstFactors(i, a, b, s);
    SquareDifference(a, b);
    Halves(i + 1 + a, i + a + b + 1, i, i + b, s, a - b, a + b);
  }

  lemma SquareDifference(a: int, b: int)
    ensures a * a - b * b == (a - b) * (a + b)
  {
  }

  lemma FirstFactors(i: int, a: int, b: int, s: int)
    ensures 2 * (i + 1) * (i + a + b + 1) * s == 2 * ((i + a + b + 1) * s) * (i + 1)
    ensures 2 * (i + a) * (i + b) * (s + 2) == 2 * ((i + b) * (s + 2)) * (i + a)
  {
  }

  lemma Gather(k: real, m: real, x: real, y: real, u: real, v: real, next: real, current: real, previous: real)
    requires u * current == v * previous && x * next == y * current
    ensures (k * y + m * u) * current - (m * v) * previous == (k * x) * next
  {
    assert (k * y + m * u) * current == k * (y * current) + m * (u * current);
    assert (m * v) * previous == m * (v * previous) && (k * x) * next == k * (x * next);
  }

  lemma ProductAsReal(x: int, y: int)
    ensures (x * y) as real == x as real * y as real
  {
  }

  lemma RatioAsReal(x: int, c: int, y: int, d: int)
    requires x * c == y * d
    ensures x as real * c as real == y as real * d as real
  {
    ProductAsReal(x, c);
    ProductAsReal(y, d);
  }

  /** C(n + a, n) as a real. */
  function Binomial(n: nat, a: nat): real {
    Choose(n + a, n) as real
  }

  lemma {:induction false} BinomialRatio(n: nat, next: nat, a: nat)
    requires next == n + 1
    ensures next as real * Binomial(next, a) == (next + a) as real * Binomial(n, a)
  {
    ChooseRatio(n, a);
    RatioAsReal(next, Choose(next + a, next), next + a, Choose(n + a, n));
  }

  lemma NumeratorFromFactors(k: int, m: int, i: int, a: int, a1: int, a23: int, a4: int, next: real, current: real,
                             previous: real)
    requires a1 == k * (i + 1) && a4 == m * (i + a) && a23 == k * (i + 1 + a) + m * i
    requires i as real * current == (i + a) as real * previous
    requires (i + 1) as real * next == (i + 1 + a) as real * current
    ensures a23 as real * current - a4 as real * previous == a1 as real * next
  {
    FactorsAsReal(k, m, i, a, a1, a23, a4);
    Gather(k as real, m as real, (i + 1) as real, (i + 1 + a) as real, i as real, (i + a) as real, next, current,
           previous);
  }

  /** Coefficients with these factors solve whatever has the ratios of the binomials. */
  lemma FactorsSolve(r: Recurrence, i: nat, a: nat, k: int, m: int, a1: int, a2: int, a3: int, a4: int,
                     previous: real, current: real, next: real)
    requires r.a1(i) == a1 as real && r.a2(i) == a2 as real && r.a3(i) == a3 as real && r.a4(i) == a4 as real
    requires a1 == k * (i + 1) && a4 == m * (i + a) && a2 + a3 == k * (i + 1 + a) + m * i
    requires i as real * current == (i + a) as real * previous
    requires (i + 1) as real * next == (i + 1 + a) as real * current
    ensures Solves(r, i, previous, current, next)
  {
    NumeratorFromFactors(k, m, i, a, a1, a2 + a3, a4, next, current, previous);
    assert (a2 + a3) as real == a2 as real + a3 as real;
  }

  lemma RatiosSolve(i: nat, a: nat, b: nat, previous: real, current: real, next: real)
    requires a >= b && i as real * current == (i + a) as real * previous
    requires (i + 1) as real * next == (i + 1 + a) as real * current
    ensures Solves(JacobiRecurrence(a, b), i, previous, current, next)
  {
    var k, m := CoefficientsFactor(i, a, b);
    FactorsSolve(JacobiRecurrence(a, b), i, a, k, m, A1(i, a, b), A2(i, a, b), A3(i, a, b), A4(i, a, b), previous,
                 current, next);
  }

  lemma BinomialsSolve(i: nat, a: nat, b: nat)
    requires i >= 1 && a >= b
    ensures Solves(JacobiRecurrence(a, b), i, Binomial(i - 1, a), Binomial(i, a), Binomial(i + 1, a))
  {
    BinomialRatio(i - 1, i, a);
    BinomialRatio(i, i + 1, a);
    RatiosSolve(i, a, b, Binomial(i - 1, a), Binomial(i, a), Binomial(i + 1, a));
  }

  lemma FactorsAsReal(k: int, m: int, i: int, a: int, a1: int, a23: int, a4: int)
    requires a1 == k * (i + 1) && a4 == m * (i + a) && a23 == k * (i + 1 + a) + m * i
    ensures a1 as real == k as real * (i + 1) as real && a4 as real == m as real * (i + a) as real
    ensures a23 as real == k as real * (i + 1 + a) as real + m as real * i as real
  {
    ProductAsReal(k, i + 1);
    ProductAsReal(m, i + a);
    ProductAsReal(k, i + 1 + a);
    ProductAsReal(m, i);
  }

  /** Every polynomial is the binomial C(n + a, n) at x = 1, whatever b. */
  lemma ValueAtOne(n: nat, a: nat, b: nat)
    requires a >= b
    ensures Value(n, a, b, 1.0) == Binomial(n, a)
  {
    JacobiIsValid(a, b);
    var r, target := JacobiRecurrence(a, b), (k: nat) => Binomial(k, a);
    forall i: nat | i >= 1
      ensures Solves(r, i, target(i - 1), target(i), target(i + 1))
    {
      BinomialsSolve(i, a, b);
    }
    ChooseRatio(0, a);
    assert r.first(1.0) == (1 + a) as real;
    SolutionAtOne(r, target, n);
  }
}
