/**
 The Jacobi polynomials of the library written out in powers of (x - 1) / 2: the recurrence gives these polynomials.
 */
module JacobiExpansion {
  import opened Reals
  import opened Jacobi

  // ----- the coefficients -----

  /** C(n + a, n - k) C(n + a + b + k, k). */
  function Coefficient(n: nat, k: nat, a: nat, b: nat): nat {
    if k > n then 0 else Choose(n + a, n - k) * Choose(n + a + b + k, k)
  }

  /** j C(m, j) = m C(m - 1, j - 1). */
  lemma ChooseAbsorb(m: nat, j: nat)
    requires 1 <= j <= m
    ensures j * Choose(m, j) == m * Choose(m - 1, j - 1)
  {
    ChooseNext(m - 1, j - 1);
    Distribute(j, m - j, Choose(m - 1, j - 1), Choose(m - 1, j));
  }

  lemma Distribute(j: int, i: int, x: int, y: int)
    requires j * y == i * x
    ensures j * (x + y) == (i + j) * x
  {
  }

  /** (m - j) C(m, j) = m C(m - 1, j). */
  lemma ChooseLower(m: nat, j: nat)
    requires 1 <= m && j <= m
    ensures (m - j) * Choose(m, j) == m * Choose(m - 1, j)
  {
    if j > 0 {
      ChooseAbsorb(m, j);
      Remainder(m, j, Choose(m - 1, j - 1), Choose(m - 1, j));
    }
  }

  lemma Remainder(m: int, j: int, x: int, y: int)
    requires j * (x + y) == m * x
    ensures (m - j) * (x + y) == m * y
  {
  }

  lemma Cross(x: int, y: int, p: int, q: int, x': int, y': int, p': int, q': int)
    requires p * x == p' * x' && q * y == q' * y'
    ensures (x * y) * (p * q) == (x' * y') * (p' * q')
  {
    assert (x * y) * (p * q) == (p * x) * (q * y);
    assert (x' * y') * (p' * q') == (p' * x') * (q' * y');
  }

  lemma DegreeRatio(n: nat, k: nat, a: nat, b: nat)
    requires k <= n
    ensures Coefficient(n + 1, k, a, b) * ((n + 1 - k) * (n + 1 + (a + b)))
         == Coefficient(n, k, a, b) * ((n + 1 + a) * (n + a + b + k + 1))
  {
    ChooseAbsorb(n + 1 + a, n + 1 - k);
    ChooseLower(n + 1 + a + b + k, k);
    Cross(Choose(n + 1 + a, n + 1 - k), Choose(n + 1 + a + b + k, k), n + 1 - k, n + 1 + (a + b),
          Choose(n + a, n - k), Choose(n + a + b + k, k), n + 1 + a, n + a + b + k + 1);
  }

  lemma PowerRatio(n: nat, k: nat, a: nat, b: nat)
    requires 1 <= k <= n
    ensures Coefficient(n, k, a, b) * ((a + k) * k) == Coefficient(n, k - 1, a, b) * ((n - k + 1) * (n + a + b + k))
  {
    ChooseNext(n + a, n - k);
    ChooseAbsorb(n + a + b + k, k);
    Cross(Choose(n + a, n - k), Choose(n + a + b + k, k), a + k, k,
          Choose(n + a, n - k + 1), Choose(n + a + b + k - 1, k - 1), n - k + 1, n + a + b + k);
  }

  // ----- a polynomial identity, in t = 2 n + a + b and u = n + a + b + k -----

  lemma LeadingTerms(t: int, s: int, d: int, p: int, q: int, w: int, g: int)
    requires 2 * p == (t + 2 - s) * (t + 2 + d) && 2 * q == (t - d) * (t + s) && w == d * s + t * (t + 2)
    requires g == (t + 1) * (t + 2)
    ensures t * p + (t + 2) * q == 2 * (t * g) - (t + 1) * w
  {
    assert t * (2 * p) == t * ((t + 2 - s) * (t + 2 + d));
    assert (t + 2) * (2 * q) == (t + 2) * ((t - d) * (t + s));
  }

  lemma DoubleQ(t: int, s: int, d: int, b: int, q: int, w: int)
    requires 2 * q == (t - d) * (t + s) && w == d * s + t * (t + 2) && 2 * b == s - d
    ensures 2 * q == 2 * (t * (t + b + 1)) - w
  {
    assert t * (2 * b) == t * (s - d);
  }

  lemma Spread(t: int, q: int, w: int, e: int, g: int)
    requires g == (t + 1) * (t + 2) && 2 * q == 2 * (t * e) - w
    ensures (2 * t + 2) * ((t + 2) * q) == 2 * (t * g) * e - g * w
  {
    assert (2 * t + 2) * ((t + 2) * q) == g * (2 * q);
    assert g * (2 * (t * e) - w) == 2 * (g * (t * e)) - g * w;
    assert g * (t * e) == (t * g) * e;
  }

  lemma LinearTerms(t: int, s: int, d: int, b: int, p: int, q: int, w: int, g: int)
    requires 2 * p == (t + 2 - s) * (t + 2 + d) && 2 * q == (t - d) * (t + s) && w == d * s + t * (t + 2)
    requires 2 * b == s - d && g == (t + 1) * (t + 2)
    ensures t * p - (2 * t + 1) * ((t + 2) * q) == (t + 1) * ((t + 1) * w) - 2 * (t * g) * (t + b)
  {
    LeadingTerms(t, s, d, p, q, w, g);
    DoubleQ(t, s, d, b, q, w);
    Spread(t, q, w, t + b + 1, g);
    Balance(t, w, t * g, (t + 2) * q, t * p, b, g);
  }

  lemma Balance(t: int, w: int, m: int, x: int, y: int, b: int, g: int)
    requires y + x == 2 * m - (t + 1) * w && (2 * t + 2) * x == 2 * m * (t + b + 1) - g * w && g == (t + 1) * (t + 2)
    ensures y - (2 * t + 1) * x == (t + 1) * ((t + 1) * w) - 2 * m * (t + b)
  {
    assert y - (2 * t + 1) * x == (y + x) - (2 * t + 2) * x;
    assert 2 * m * (t + b + 1) == 2 * m * (t + b) + 2 * m;
    assert g * w == (t + 1) * ((t + 1) * w) + (t + 1) * w;
  }

  lemma IdentityInU(t: int, u: int, p: int, q: int, w: int, g: int, b: int, r: int)
    requires t * p + (t + 2) * q == 2 * (t * g) - (t + 1) * w
    requires t * p - (2 * t + 1) * ((t + 2) * q) == (t + 1) * ((t + 1) * w) - 2 * (t * g) * (t + b)
    requires g == (t + 1) * (t + 2) && q == 2 * r
    ensures t * p * ((u + 1) * u) + (t + 2) * q * ((t - u) * (t + 1 - u))
         == (t + 1) * w * (u * (t + 1 - u)) + 2 * (t * g) * (u * u - (t + b) * u + r)
  {
    var x, y, m, z := (t + 2) * q, t * p, t * g, (t + 1) * w;
    ShiftedSquare(t, u, x);
    ExpandInU(u, x, y, m, z, t, b);
    assert x * (t * (t + 1)) == 2 * m * r by {
      assert x * (t * (t + 1)) == (2 * r) * (t * ((t + 1) * (t + 2)));
    }
  }

  lemma ShiftedSquare(t: int, u: int, x: int)
    ensures x * ((t - u) * (t + 1 - u)) == x * (u * u - (2 * t + 1) * u) + x * (t * (t + 1))
  {
    assert (t - u) * (t + 1 - u) == u * u - (2 * t + 1) * u + t * (t + 1);
  }

  lemma ExpandInU(u: int, x: int, y: int, m: int, z: int, t: int, b: int)
    requires y + x == 2 * m - z && y - (2 * t + 1) * x == (t + 1) * z - 2 * m * (t + b)
    ensures y * ((u + 1) * u) + x * (u * u - (2 * t + 1) * u) == z * (u * (t + 1 - u)) + 2 * m * (u * u - (t + b) * u)
  {
    CollectPowers(u, x, y, 2 * t + 1);
    CollectOtherPowers(u, z, 2 * m, t + 1, t + b);
    SameProduct(y + x, 2 * m - z, u * u);
    SameProduct(y - (2 * t + 1) * x, (t + 1) * z - 2 * m * (t + b), u);
  }

  lemma SameProduct(x: int, y: int, z: int)
    requires x == y
    ensures x * z == y * z
  {
  }

  lemma CollectPowers(u: int, x: int, y: int, r: int)
    ensures y * ((u + 1) * u) + x * (u * u - r * u) == (y + x) * (u * u) + (y - r * x) * u
  {
  }

  lemma CollectOtherPowers(u: int, z: int, m: int, r: int, e: int)
    ensures z * (u * (r - u)) + m * (u * u - e * u) == (m - z) * (u * u) + (r * z - m * e) * u
  {
  }

  // ----- the coefficients satisfy the recurrence -----

  lemma NextTerm(c: int, c1: int, u: int, v: int, w: int, t: int, x: int, y: int, z: int)
    requires c1 * (v * y) == c * (z * w)
    ensures (v * u) * ((2 * x * y * t) * c1) == (t * (2 * (x * z)) * (w * u)) * c
  {
    assert (v * u) * ((2 * x * y * t) * c1) == (2 * x * t * u) * (c1 * (v * y));
    assert (2 * x * t * u) * (c * (z * w)) == (t * (2 * (x * z)) * (w * u)) * c;
  }

  lemma PreviousTerm(c: int, c0: int, u: int, v: int, t: int, x: int, y: int, z: int, l: int)
    requires c0 * (x * u) == c * (l * z)
    ensures (v * u) * ((2 * x * y * (t + 2)) * c0) == ((t + 2) * (2 * (y * z)) * (l * v)) * c
  {
    assert (v * u) * ((2 * x * y * (t + 2)) * c0) == (2 * y * (t + 2) * v) * (c0 * (x * u));
    assert (2 * y * (t + 2) * v) * (c * (l * z)) == ((t + 2) * (2 * (y * z)) * (l * v)) * c;
  }

  lemma ShiftedTerm(c: int, cp: int, u: int, v: int, m: int, e: int)
    requires cp * (v * u) == c * e
    ensures (v * u) * (2 * m * cp) == (2 * m * e) * c
  {
    assert (v * u) * (2 * m * cp) == 2 * m * (cp * (v * u));
  }

  lemma CurrentTerm(c: int, u: int, v: int, w: int)
    ensures (v * u) * (w * c) == (w * (u * v)) * c
  {
  }

  lemma CancelTerms(z: int, x1: int, x2: int, x3: int, x4: int, e1: int, e2: int, e3: int, e4: int, c: int)
    requires z > 0 && e1 + e4 == e2 + e3
    requires z * x1 == e1 * c && z * x2 == e2 * c && z * x3 == e3 * c && z * x4 == e4 * c
    ensures x1 + x4 == x2 + x3
  {
    assert z * (x1 + x4) == (e1 + e4) * c && z * (x2 + x3) == (e2 + e3) * c;
    SameFactor(z, x1 + x4, x2 + x3);
  }

  lemma SameFactor(z: int, x: int, y: int)
    requires z > 0 && z * x == z * y
    ensures x == y
  {
    if x < y {
      Grows(z, x, y);
    } else if y < x {
      Grows(z, y, x);
    }
  }

  lemma Grows(z: int, x: int, y: int)
    requires z > 0 && x < y
    ensures z * x < z * y
  {
    assert z * (y - x) > 0;
  }

  /** The factors of one coefficient's terms add up. */
  lemma FactorsAddUp(n: int, k: int, a: int, b: int)
    ensures var t, u := 2 * n + a + b, n + a + b + k;
            t * (2 * ((n + 1) * (n + 1 + a))) * ((u + 1) * u)
            + (t + 2) * (2 * ((n + b) * (n + (a + b)))) * ((n - k) * (n + 1 - k))
            == (A2(n, a, b) + A3(n, a, b)) * (u * (n + 1 - k)) + 2 * A3(n, a, b) * ((a + k) * k)
  {
    var s, d, t, u := a + b, a - b, 2 * n + a + b, n + a + b + k;
    var p, q, w, g, r := 2 * ((n + 1) * (n + 1 + a)), 2 * ((n + b) * (n + s)), d * s + t * (t + 2), (t + 1) * (t + 2),
                         (n + s) * (n + b);
    Halved(n, a, b);
    LeadingTerms(t, s, d, p, q, w, g);
    LinearTerms(t, s, d, b, p, q, w, g);
    IdentityInU(t, u, p, q, w, g, b, r);
    ShiftInU(n, k, a, b);
    SumOfMiddle(n, a, b);
  }

  lemma Halved(n: int, a: int, b: int)
    ensures var t, s, d := 2 * n + a + b, a + b, a - b;
            && 2 * (2 * ((n + 1) * (n + 1 + a))) == (t + 2 - s) * (t + 2 + d)
            && 2 * (2 * ((n + b) * (n + s))) == (t - d) * (t + s)
  {
  }

  lemma ShiftInU(n: int, k: int, a: int, b: int)
    ensures var t, u := 2 * n + a + b, n + a + b + k;
            (a + k) * k == u * u - (t + b) * u + (n + (a + b)) * (n + b)
  {
    var u := n + a + b + k;
    assert (a + k) * k == (u - (n + b)) * (u - (n + (a + b)));
  }

  lemma SumOfMiddle(n: int, a: int, b: int)
    ensures var t := 2 * n + a + b;
            && A3(n, a, b) == t * ((t + 1) * (t + 2))
            && A2(n, a, b) + A3(n, a, b) == (t + 1) * ((a - b) * (a + b) + t * (t + 2))
  {
    SquareDifference(a, b);
  }

  /** The coefficient of one power less; none for the lowest. */
  function Shifted(n: nat, k: nat, a: nat, b: nat): nat {
    if k == 0 then 0 else Coefficient(n, k - 1, a, b)
  }

  ghost predicate Recurs(n: nat, k: nat, a: nat, b: nat)
    requires n >= 1
  {
    A1(n, a, b) * Coefficient(n + 1, k, a, b) + A4(n, a, b) * Coefficient(n - 1, k, a, b)
    == (A2(n, a, b) + A3(n, a, b)) * Coefficient(n, k, a, b) + 2 * A3(n, a, b) * Shifted(n, k, a, b)
  }

  lemma MiddleRecurs(n: nat, k: nat, a: nat, b: nat)
    requires n >= 1 && k <= n
    ensures Recurs(n, k, a, b)
  {
    var t, u, v := 2 * n + a + b, n + a + b + k, n + 1 - k;
    var c, c0, c1, cp := Coefficient(n, k, a, b), Coefficient(n - 1, k, a, b), Coefficient(n + 1, k, a, b),
        Shifted(n, k, a, b);
    DegreeRatio(n, k, a, b);
    NextTerm(c, c1, u, v, u + 1, t, n + 1, n + a + b + 1, n + 1 + a);
    LowerDegree(n, k, a, b);
    PreviousTerm(c, c0, u, v, t, n + a, n + b, n + (a + b), n - k);
    LowerPower(n, k, a, b);
    ShiftedTerm(c, cp, u, v, A3(n, a, b), (a + k) * k);
    CurrentTerm(c, u, v, A2(n, a, b) + A3(n, a, b));
    FactorsAddUp(n, k, a, b);
    Positive(v, u);
    CancelTerms(v * u, A1(n, a, b) * c1, (A2(n, a, b) + A3(n, a, b)) * c, 2 * A3(n, a, b) * cp, A4(n, a, b) * c0,
                t * (2 * ((n + 1) * (n + 1 + a))) * ((u + 1) * u), (A2(n, a, b) + A3(n, a, b)) * (u * v),
                2 * A3(n, a, b) * ((a + k) * k), (t + 2) * (2 * ((n + b) * (n + (a + b)))) * ((n - k) * v), c);
  }

  lemma Positive(v: int, u: int)
    requires v > 0 && u > 0
    ensures v * u > 0
  {
  }

  lemma LowerDegree(n: nat, k: nat, a: nat, b: nat)
    requires n >= 1 && k <= n
    ensures Coefficient(n - 1, k, a, b) * ((n + a) * (n + a + b + k))
            == Coefficient(n, k, a, b) * ((n - k) * (n + (a + b)))
  {
    if k < n {
      DegreeRatio(n - 1, k, a, b);
    }
  }

  lemma LowerPower(n: nat, k: nat, a: nat, b: nat)
    requires n >= 1 && k <= n
    ensures Shifted(n, k, a, b) * ((n + 1 - k) * (n + a + b + k)) == Coefficient(n, k, a, b) * ((a + k) * k)
  {
    if k > 0 {
      PowerRatio(n, k, a, b);
    }
  }

  lemma TopRecurs(n: nat, a: nat, b: nat)
    requires n >= 1
    ensures Recurs(n, n + 1, a, b)
  {
    var t := 2 * n + a + b;
    var c, c1 := Coefficient(n, n, a, b), Coefficient(n + 1, n + 1, a, b);
    assert c == Choose(t, n) && c1 == Choose(t + 2, n + 1);
    ChooseAbsorb(t + 2, n + 1);
    ChooseLower(t + 1, n);
    TopTerm(2 * t, n + 1, n + a + b + 1, t + 2, t + 1, c1, Choose(t + 1, n), c);
    OuterFactors(n, a, b);
  }

  lemma TopTerm(p: int, x: int, z: int, w: int, v: int, c1: int, y: int, c: int)
    requires x * c1 == w * y && z * y == v * c
    ensures (p * x * z) * c1 == (p * v * w) * c
  {
    Regroup(p, x, z, c1);
    SameProduct(x * c1, w * y, p * z);
    Regroup(p, w, z, y);
    SameProduct(z * y, v * c, p * w);
    Regroup(p, v, w, c);
  }

  lemma Regroup(p: int, x: int, z: int, c: int)
    ensures (p * x * z) * c == (x * c) * (p * z) == (z * c) * (p * x)
  {
  }

  /** The two outer numbers, with the factors the highest coefficient meets. */
  lemma OuterFactors(n: int, a: int, b: int)
    ensures var t := 2 * n + a + b;
            && A1(n, a, b) == (2 * t) * (n + 1) * (n + a + b + 1)
            && 2 * A3(n, a, b) == (2 * t) * (t + 1) * (t + 2)
  {
  }

  /** Power by power, the coefficients satisfy the library's recurrence at x = 1 + 2 y. */
  lemma CoefficientsRecur(n: nat, k: nat, a: nat, b: nat)
    requires n >= 1
    ensures Recurs(n, k, a, b)
  {
    if k <= n {
      MiddleRecurs(n, k, a, b);
    } else if k == n + 1 {
      TopRecurs(n, a, b);
    }
  }

  // ----- the polynomial in powers of y -----

  function Power(y: real, k: nat): real {
    if k == 0 then 1.0 else Times(y, Power(y, k - 1))
  }

  function Scaled(c: int, p: real): real {
    c as real * p
  }

  function Term(c: nat -> int, y: real, k: nat): real {
    Scaled(c(k), Power(y, k))
  }

  /** The term of one power less; none for the lowest. */
  function TermBelow(c: nat -> int, y: real, k: nat): real {
    if k == 0 then 0.0 else Term(c, y, k - 1)
  }

  /** The first m terms of the series with these coefficients. */
  function Series(c: nat -> int, y: real, m: nat): real {
    if m == 0 then 0.0 else Series(c, y, m - 1) + Term(c, y, m - 1)
  }

  function Coefficients(n: nat, a: nat, b: nat): nat -> int {
    (k: nat) => Coefficient(n, k, a, b)
  }

  lemma {:induction false} ZerosAtEnd(n: nat, a: nat, b: nat, y: real, m: nat)
    requires m >= n + 1
    ensures Series(Coefficients(n, a, b), y, m) == Series(Coefficients(n, a, b), y, n + 1)
  {
    if m > n + 1 {
      ZerosAtEnd(n, a, b, y, m - 1);
    }
  }

  /** The recurrence's four numbers: for the next value, the current one, the shifted one and the previous one. */
  datatype Weights = Weights(a1: real, a23: real, a3: real, a4: real)

  function WeightsAt(n: nat, a: nat, b: nat): Weights {
    Weights(A1(n, a, b) as real, (A2(n, a, b) + A3(n, a, b)) as real, A3(n, a, b) as real, A4(n, a, b) as real)
  }

  /** The recurrence at 1 + 2 y. */
  ghost predicate Recurring(w: Weights, y: real, next: real, current: real, shifted: real, previous: real) {
    w.a1 * next == w.a23 * current + 2.0 * w.a3 * (y * shifted) - w.a4 * previous
  }

  lemma RecursAsReal(a1: int, a23: int, a3: int, a4: int, next: int, current: int, shifted: int, previous: int, p: real)
    requires a1 * next + a4 * previous == a23 * current + 2 * a3 * shifted
    ensures Recurring(Weights(a1 as real, a23 as real, a3 as real, a4 as real), 1.0,
                      Scaled(next, p), Scaled(current, p), Scaled(shifted, p), Scaled(previous, p))
  {
    ProductAsReal(a1, next);
    ProductAsReal(a4, previous);
    ProductAsReal(a23, current);
    ProductAsReal(a3, shifted);
    var n, c, s, q := a1 as real * next as real, a23 as real * current as real, a3 as real * shifted as real,
                      a4 as real * previous as real;
    assert 2 * a3 * shifted == 2 * (a3 * shifted);
    assert n + q == c + 2.0 * s;
    assert (n + q) * p == (c + 2.0 * s) * p;
  }

  /** One more term on each side. */
  lemma AddTerms(w: Weights, y: real, next: real, current: real, shifted: real, previous: real,
                 x1: real, x: real, xs: real, x0: real)
    requires Recurring(w, y, next, current, shifted, previous) && Recurring(w, y, x1, x, xs, x0)
    ensures Recurring(w, y, next + x1, current + x, shifted + xs, previous + x0)
  {
    assert y * (shifted + xs) == y * shifted + y * xs;
    assert 2.0 * w.a3 * (y * shifted + y * xs) == 2.0 * w.a3 * (y * shifted) + 2.0 * w.a3 * (y * xs);
  }

  /** The terms at power k of three coefficient sequences; the current one also enters one power lower. */
  ghost predicate TermsRecur(w: Weights, y: real, c1: nat -> int, c: nat -> int, c0: nat -> int, k: nat) {
    Recurring(w, y, Term(c1, y, k), Term(c, y, k), TermBelow(c, y, k), Term(c0, y, k))
  }

  lemma {:induction false} SeriesStep(w: Weights, y: real, c1: nat -> int, c: nat -> int, c0: nat -> int, m: nat)
    requires m >= 1 && forall k: nat :: TermsRecur(w, y, c1, c, c0, k)
    ensures Recurring(w, y, Series(c1, y, m), Series(c, y, m), Series(c, y, m - 1), Series(c0, y, m))
  {
    var k := m - 1;
    assert TermsRecur(w, y, c1, c, c0, k);
    if k > 0 {
      SeriesStep(w, y, c1, c, c0, k);
      AddTerms(w, y, Series(c1, y, k), Series(c, y, k), Series(c, y, k - 1), Series(c0, y, k),
               Term(c1, y, k), Term(c, y, k), TermBelow(c, y, k), Term(c0, y, k));
    }
  }

  lemma JacobiTermsRecur(n: nat, a: nat, b: nat, y: real, k: nat)
    requires n >= 1
    ensures TermsRecur(WeightsAt(n, a, b), y, Coefficients(n + 1, a, b), Coefficients(n, a, b),
                       Coefficients(n - 1, a, b), k)
  {
    CoefficientsRecur(n, k, a, b);
    TermsFromIntegers(A1(n, a, b), A2(n, a, b) + A3(n, a, b), A3(n, a, b), A4(n, a, b), Coefficient(n + 1, k, a, b),
                      Coefficient(n, k, a, b), Shifted(n, k, a, b), Coefficient(n - 1, k, a, b), y,
                      if k == 0 then 0.0 else Power(y, k - 1), Power(y, k));
    ShiftedTermIs(n, k, a, b, y);
  }

  lemma ShiftedTermIs(n: nat, k: nat, a: nat, b: nat, y: real)
    ensures TermBelow(Coefficients(n, a, b), y, k)
            == Scaled(Shifted(n, k, a, b), if k == 0 then 0.0 else Power(y, k - 1))
  {
  }

  lemma TermsFromIntegers(a1: int, a23: int, a3: int, a4: int, next: int, current: int, shifted: int, previous: int,
                          y: real, p: real, q: real)
    requires a1 * next + a4 * previous == a23 * current + 2 * a3 * shifted && (q == y * p || shifted == 0)
    ensures Recurring(Weights(a1 as real, a23 as real, a3 as real, a4 as real), y,
                      Scaled(next, q), Scaled(current, q), Scaled(shifted, p), Scaled(previous, q))
  {
    RecursAsReal(a1, a23, a3, a4, next, current, shifted, previous, q);
    MovePower(Weights(a1 as real, a23 as real, a3 as real, a4 as real), y, Scaled(next, q), Scaled(current, q),
              shifted, p, q, Scaled(previous, q));
  }

  lemma MovePower(w: Weights, y: real, next: real, current: real, c: int, p: real, q: real, previous: real)
    requires Recurring(w, 1.0, next, current, Scaled(c, q), previous) && (q == y * p || c == 0)
    ensures Recurring(w, y, next, current, Scaled(c, p), previous)
  {
    assert y * (c as real * p) == c as real * (y * p);
  }

  // ----- main result -----

  /** At x = 1 + 2 y the polynomial of degree n is the sum of its n + 1 terms. */
  lemma {:induction false} Expansion(n: nat, a: nat, b: nat, x: real, y: real)
    requires a >= b && x == 1.0 + 2.0 * y
    ensures Value(n, a, b, x) == Series(Coefficients(n, a, b), y, n + 1)
  {
    JacobiIsValid(a, b);
    if n == 0 {
      assert Series(Coefficients(0, a, b), y, 1)
             == Series(Coefficients(0, a, b), y, 0) + Term(Coefficients(0, a, b), y, 0);
    } else if n == 1 {
      FirstDegree(a, b, x, y);
    } else {
      var i := n - 1;
      Expansion(i, a, b, x, y);
      Expansion(i - 1, a, b, x, y);
      JacobiSeriesStep(i, a, b, y);
      ZerosAtEnd(i, a, b, y, n + 1);
      ZerosAtEnd(i - 1, a, b, y, n + 1);
      StepFromSeries(WeightsAt(i, a, b), i, a, b, x, y, Series(Coefficients(n, a, b), y, n + 1), Value(i, a, b, x),
                     Value(i - 1, a, b, x));
    }
  }

  lemma FirstDegree(a: nat, b: nat, x: real, y: real)
    requires a >= b && x == 1.0 + 2.0 * y
    ensures JacobiRecurrence(a, b).first(x) == Series(Coefficients(1, a, b), y, 2)
  {
    var c := Coefficients(1, a, b);
    ChooseAbsorb(1 + a, 1);
    ChooseAbsorb(a + b + 2, 1);
    assert c(0) == 1 + a && c(1) == a + b + 2;
    assert Power(y, 1) == y * Power(y, 0) == y;
    assert Series(c, y, 1) == Series(c, y, 0) + Term(c, y, 0) && Series(c, y, 2) == Series(c, y, 1) + Term(c, y, 1);
    assert (a + b + 2) as real * x == (a + b + 2) as real + 2.0 * ((a + b + 2) as real * y);
  }

  lemma JacobiSeriesStep(i: nat, a: nat, b: nat, y: real)
    requires i >= 1
    ensures Recurring(WeightsAt(i, a, b), y, Series(Coefficients(i + 1, a, b), y, i + 2),
                      Series(Coefficients(i, a, b), y, i + 2),
                      Series(Coefficients(i, a, b), y, i + 1), Series(Coefficients(i - 1, a, b), y, i + 2))
  {
    var w, c1, c, c0 := WeightsAt(i, a, b), Coefficients(i + 1, a, b), Coefficients(i, a, b), Coefficients(i - 1, a, b);
    forall k: nat
      ensures TermsRecur(w, y, c1, c, c0, k)
    {
      JacobiTermsRecur(i, a, b, y, k);
    }
    SeriesStep(w, y, c1, c, c0, i + 2);
  }

  lemma StepFromSeries(w: Weights, i: nat, a: nat, b: nat, x: real, y: real, next: real, current: real, previous: real)
    requires i >= 1 && a >= b && x == 1.0 + 2.0 * y && w == WeightsAt(i, a, b)
    requires Recurring(w, y, next, current, current, previous)
    ensures JacobiRecurrence(a, b).a1(i) != 0.0 && JacobiRecurrence(a, b).Step(i, x, current, previous) == next
  {
    A1Positive(i, a, b);
    SumAsReal(A2(i, a, b), A3(i, a, b));
    StepIs(JacobiRecurrence(a, b), w, i, A2(i, a, b) as real, x, y, next, current, previous);
  }

  lemma StepIs(r: Recurrence, w: Weights, i: nat, a2: real, x: real, y: real, next: real, current: real, previous: real)
    requires w.a1 != 0.0 && x == 1.0 + 2.0 * y && w.a23 == a2 + w.a3
             && Recurring(w, y, next, current, current, previous)
    requires r.a1(i) == w.a1 && r.a2(i) == a2 && r.a3(i) == w.a3 && r.a4(i) == w.a4
    ensures r.Step(i, x, current, previous) == next
  {
    StepDivided(w, a2, x, y, next, current, previous);
  }

  lemma SumAsReal(x: int, y: int)
    ensures (x + y) as real == x as real + y as real
  {
  }

  lemma StepDivided(w: Weights, a2: real, x: real, y: real, next: real, current: real, previous: real)
    requires w.a1 != 0.0 && x == 1.0 + 2.0 * y && w.a23 == a2 + w.a3
             && Recurring(w, y, next, current, current, previous)
    ensures ((a2 + w.a3 * x) * current - w.a4 * previous) / w.a1 == next
  {
    assert w.a3 * x == w.a3 + 2.0 * (w.a3 * y);
    assert (a2 + w.a3 * x) * current == w.a23 * current + 2.0 * w.a3 * (y * current);
    DivideBack(w.a1, next);
  }
}
