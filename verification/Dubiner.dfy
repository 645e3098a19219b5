/**
 The Dubiner basis on the triangle: the numbering of its functions, their values and derivatives in collapsed
 coordinates, and the special values at the collapsed vertex.
 */
module Dubiner {
  import opened Jacobi
  import opened Reals

  // ----- numbering -----

  /** Functions of total degree below t: the t-th triangular number. */
  function Lower(t: nat): nat {
    if t == 0 then 0 else Lower(t - 1) + t
  }

  /** The closed form that the program uses. */
  lemma {:induction false} LowerClosed(t: nat)
    ensures 2 * Lower(t) == (t + 1) * t && Lower(t) == (t + 1) * t / 2
  {
    if t > 0 {
      LowerClosed(t - 1);
      assert (t + 1) * t == t * (t - 1) + 2 * t;
    }
  }

  lemma {:induction false} LowerGrows(s: nat, t: nat)
    requires s <= t
    ensures Lower(s) <= Lower(t)
    decreases t
  {
    if s < t {
      LowerGrows(s, t - 1);
    }
  }

  /** Total degree of function dof: the orders below it end at dof or before, and the next one behind it. */
  function TriIndex(dof: nat): (t: nat)
    ensures Lower(t) <= dof < Lower(t + 1)
  {
    if dof == 0 then 0 else
      var t := TriIndex(dof - 1);
      if dof < Lower(t + 1) then t else t + 1
  }

  /** (-3 + sqrt(1 + 8 (dof + 1))) / 2 <= t, with the root squared away. */
  predicate Reaches(t: nat, dof: nat) {
    (2 * t + 3) * (2 * t + 3) >= 1 + 8 * (dof + 1)
  }

  lemma ReachesBelow(t: nat, dof: nat)
    ensures Reaches(t, dof) <==> dof < Lower(t + 1)
  {
    LowerClosed(t + 1);
    assert 4 * ((t + 2) * (t + 1)) == (2 * t + 3) * (2 * t + 3) - 1;
  }

  /** The total degree is the rounded-up root of the program. */
  lemma TriIndexIsRoundedRoot(dof: nat, t: nat)
    ensures Reaches(t, dof) <==> TriIndex(dof) <= t
  {
    ReachesBelow(t, dof);
    if TriIndex(dof) <= t {
      LowerGrows(TriIndex(dof) + 1, t + 1);
    } else {
      LowerGrows(t + 1, TriIndex(dof));
    }
  }

  /** The degrees in both directions of function dof. */
  function Degrees(dof: nat): (pq: (nat, nat))
    ensures DofOf(pq.0, pq.1) == dof
  {
    var t := TriIndex(dof);
    var p := dof - Lower(t);
    (p, t - p)
  }

  /** The number of the function with degrees p and q. */
  function DofOf(p: nat, q: nat): nat {
    Lower(p + q) + p
  }

  lemma OrdersFirst(p: nat, q: nat, n: nat)
    ensures DofOf(p, q) < Lower(n + 1) <==> p + q <= n
  {
    if p + q <= n {
      LowerGrows(p + q + 1, n + 1);
    } else {
      LowerGrows(n + 1, p + q);
    }
  }

  /** Different pairs of degrees have different numbers. */
  lemma SameDof(p: nat, q: nat, p': nat, q': nat)
    requires DofOf(p, q) == DofOf(p', q')
    ensures p == p' && q == q'
  {
    if p + q < p' + q' {
      LowerGrows(p + q + 1, p' + q');
    } else if p' + q' < p + q {
      LowerGrows(p' + q' + 1, p + q);
    }
  }

  /** Numbers and pairs of degrees correspond one to one, and orders up to n come first. */
  lemma DegreesBijective(dof: nat, p: nat, q: nat, n: nat)
    ensures DofOf(Degrees(dof).0, Degrees(dof).1) == dof
    ensures Degrees(DofOf(p, q)) == (p, q)
    ensures DofOf(p, q) < Lower(n + 1) <==> p + q <= n
  {
    var d := Degrees(DofOf(p, q));
    SameDof(d.0, d.1, p, q);
    OrdersFirst(p, q, n);
  }

  // ----- values -----

  /** A collapsed coordinate; at the collapsed vertex it is 0/0. */
  datatype Coordinate = Number(x: real) | NaN

  function Pow(x: real, n: nat): real {
    if n == 0 then 1.0 else x * Pow(x, n - 1)
  }

  function Half(n2: real): real {
    (1.0 - n2) / 2.0
  }

  /** x to the power n - 1; for n = 0 it is multiplied by zero. */
  function PowBelow(x: real, n: nat): real {
    if n == 0 then 0.0 else Pow(x, n - 1)
  }

  /** A value and the derivatives from those of the one-dimensional polynomials. */
  function PhiFrom(psiP: real, psiPQ: real, p: nat, n2: real): real {
    psiP * Pow(Half(n2), p) * psiPQ
  }

  function DPhi1From(dpsiP: real, psiPQ: real, p: nat, n2: real): real
    requires n2 != 1.0
  {
    (2.0 / (1.0 - n2)) * dpsiP * Pow(Half(n2), p) * psiPQ
  }

  function DPhi2From(psiP: real, dpsiP: real, psiPQ: real, dpsiPQ: real, p: nat, n1: real, n2: real): real
    requires n2 != 1.0
  {
    ((1.0 + n1) / (1.0 - n2)) * dpsiP * Pow(Half(n2), p) * psiPQ
    + psiP * (Pow(Half(n2), p) * dpsiPQ - (p as real / 2.0) * PowBelow(Half(n2), p) * psiPQ)
  }

  ghost function Phi(p: nat, q: nat, n1: real, n2: real): real {
    PhiFrom(Value(p, 0, 0, n1), Value(q, 2 * p + 1, 0, n2), p, n2)
  }

  ghost function DPhi1(p: nat, q: nat, n1: real, n2: real): real
    requires n2 != 1.0
  {
    DPhi1From(Derivative(p, 0, 0, n1), Value(q, 2 * p + 1, 0, n2), p, n2)
  }

  ghost function DPhi2(p: nat, q: nat, n1: real, n2: real): real
    requires n2 != 1.0
  {
    DPhi2From(Value(p, 0, 0, n1), Derivative(p, 0, 0, n1), Value(q, 2 * p + 1, 0, n2),
              Derivative(q, 2 * p + 1, 0, n2), p, n1, n2)
  }

  /** Both recursions for the collapsed vertex carry a pair of numbers. */
  function SingularDPhi1(q: nat): (real, real) {
    if q == 0 then (3.0, 1.0) else
      var t := SingularDPhi1(q - 1);
      (t.0 + (q + 2) as real, t.0 + t.1)
  }

  function SingularDPhi2(q: nat): (real, real) {
    if q == 0 then (0.5, 0.0) else
      var t := SingularDPhi2(q - 1);
      (t.0 + 0.5 * (q + 1) as real, t.0 + t.1)
  }

  function PhiAtVertex(p: nat, q: nat): real {
    if p == 0 then (q + 1) as real else 0.0
  }

  function DPhi1AtVertex(p: nat, q: nat): real {
    if p == 1 then SingularDPhi1(q).1 else 0.0
  }

  function DPhi2AtVertex(p: nat, q: nat): real {
    if p == 0 then 3.0 * SingularDPhi2(q).1 else if p == 1 then SingularDPhi2(q + 1).1 else 0.0
  }

  // ----- evaluation at points -----

  /** Points of the triangle in collapsed coordinates: the first is undefined exactly at the collapsed vertex. */
  ghost predicate Collapsed(n1: seq<Coordinate>, n2: seq<real>) {
    |n1| == |n2| && forall pt | 0 <= pt < |n1| :: n1[pt].NaN? <==> n2[pt] == 1.0
  }

  /** What the polynomials are evaluated at; results for an undefined coordinate are overwritten. */
  function Numbers(n1: seq<Coordinate>): (x: seq<real>)
    ensures |x| == |n1|
  {
    seq(|n1|, i requires 0 <= i < |n1| => if n1[i].NaN? then 0.0 else n1[i].x)
  }

  ghost predicate IsPhi(p: nat, q: nat, n1: Coordinate, n2: real, value: real) {
    value == if n1.NaN? then PhiAtVertex(p, q) else Phi(p, q, n1.x, n2)
  }

  ghost predicate IsDPhi1(p: nat, q: nat, n1: Coordinate, n2: real, value: real)
    requires n1.NaN? || n2 != 1.0
  {
    value == if n1.NaN? then DPhi1AtVertex(p, q) else DPhi1(p, q, n1.x, n2)
  }

  ghost predicate IsDPhi2(p: nat, q: nat, n1: Coordinate, n2: real, value: real)
    requires n1.NaN? || n2 != 1.0
  {
    value == if n1.NaN? then DPhi2AtVertex(p, q) else DPhi2(p, q, n1.x, n2)
  }

  ghost predicate ValuesOf(v: seq<real>, n: nat, a: nat, b: nat, x: seq<real>)
    requires a >= b
  {
    |v| == |x| && forall pt | 0 <= pt < |x| :: v[pt] == Value(n, a, b, x[pt])
  }

  ghost predicate DerivativesOf(v: seq<real>, n: nat, a: nat, b: nat, x: seq<real>)
    requires a >= b
  {
    |v| == |x| && forall pt | 0 <= pt < |x| :: v[pt] == Derivative(n, a, b, x[pt])
  }

  method ValuesAt(n: nat, a: nat, b: nat, x: seq<real>) returns (v: seq<real>)
    requires a >= b
    ensures ValuesOf(v, n, a, b, x)
  {
    var P := JacobiPolynomial(n, a, b, x);
    v := P[..];
  }

  method DerivativesAt(n: nat, a: nat, b: nat, x: seq<real>) returns (v: seq<real>)
    requires a >= b
    ensures DerivativesOf(v, n, a, b, x)
  {
    var dP := JacobiPolynomialDerivative(n, a, b, x);
    v := dP[..];
  }

  method ComputePhi(p: nat, q: nat, n1: seq<Coordinate>, n2: seq<real>) returns (phi: array<real>)
    requires Collapsed(n1, n2)
    ensures phi.Length == |n1| && forall pt | 0 <= pt < |n1| :: IsPhi(p, q, n1[pt], n2[pt], phi[pt])
  {
    var psiP := ValuesAt(p, 0, 0, Numbers(n1));
    var psiPQ := ValuesAt(q, 2 * p + 1, 0, n2);
    phi := new real[|n1|];
    for pt := 0 to |n1|
      invariant forall j | 0 <= j < pt :: phi[j] == PhiOrVertex(psiP[j], psiPQ[j], p, q, n1[j], n2[j])
    {
      phi[pt] := PhiFrom(psiP[pt], psiPQ[pt], p, n2[pt]);
      if n1[pt].NaN? {
        phi[pt] := if p == 0 then (q + 1) as real else 0.0;
      }
    }
    forall pt | 0 <= pt < |n1|
      ensures IsPhi(p, q, n1[pt], n2[pt], phi[pt])
    {
      PhiMatches(psiP[pt], psiPQ[pt], p, q, n1[pt], n2[pt]);
    }
  }

  lemma PhiMatches(psiP: real, psiPQ: real, p: nat, q: nat, n1: Coordinate, n2: real)
    requires (n1.Number? ==> psiP == Value(p, 0, 0, n1.x)) && psiPQ == Value(q, 2 * p + 1, 0, n2)
    ensures IsPhi(p, q, n1, n2, PhiOrVertex(psiP, psiPQ, p, q, n1, n2))
  {
  }

  function PhiOrVertex(psiP: real, psiPQ: real, p: nat, q: nat, n1: Coordinate, n2: real): real {
    if n1.NaN? then PhiAtVertex(p, q) else PhiFrom(psiP, psiPQ, p, n2)
  }

  method ComputeDPhiDZ1(p: nat, q: nat, n1: seq<Coordinate>, n2: seq<real>) returns (dphi: array<real>)
    requires Collapsed(n1, n2)
    ensures dphi.Length == |n1| && forall pt | 0 <= pt < |n1| :: IsDPhi1(p, q, n1[pt], n2[pt], dphi[pt])
  {
    var psiPQ := ValuesAt(q, 2 * p + 1, 0, n2);
    var dpsiP := DerivativesAt(p, 0, 0, Numbers(n1));
    dphi := new real[|n1|];
    for pt := 0 to |n1|
      invariant forall j | 0 <= j < pt :: dphi[j] == DPhi1OrVertex(dpsiP[j], psiPQ[j], p, q, n1[j], n2[j])
    {
      dphi[pt] := DPhi1OrVertex(dpsiP[pt], psiPQ[pt], p, q, n1[pt], n2[pt]);
    }
    forall pt | 0 <= pt < |n1|
      ensures IsDPhi1(p, q, n1[pt], n2[pt], dphi[pt])
    {
      DPhi1Matches(dpsiP[pt], psiPQ[pt], p, q, n1[pt], n2[pt]);
    }
  }

  lemma DPhi1Matches(dpsiP: real, psiPQ: real, p: nat, q: nat, n1: Coordinate, n2: real)
    requires (n1.NaN? || n2 != 1.0) && psiPQ == Value(q, 2 * p + 1, 0, n2)
    requires n1.Number? ==> dpsiP == Derivative(p, 0, 0, n1.x)
    ensures IsDPhi1(p, q, n1, n2, DPhi1OrVertex(dpsiP, psiPQ, p, q, n1, n2))
  {
  }

  function DPhi1OrVertex(dpsiP: real, psiPQ: real, p: nat, q: nat, n1: Coordinate, n2: real): real
    requires n1.NaN? || n2 != 1.0
  {
    if n1.NaN? then (if p == 1 then SingularDPhi1(q).1 else 0.0) else DPhi1From(dpsiP, psiPQ, p, n2)
  }

  method ComputeDPhiDZ2(p: nat, q: nat, n1: seq<Coordinate>, n2: seq<real>) returns (dphi: array<real>)
    requires Collapsed(n1, n2)
    ensures AreDPhi2(p, q, n1, n2, dphi[..])
  {
    var psiP, dpsiP := FactorsAt(p, 0, Numbers(n1));
    var psiPQ, dpsiPQ := FactorsAt(q, 2 * p + 1, n2);
    dphi := CombineDPhi2(psiP, dpsiP, psiPQ, dpsiPQ, p, q, n1, n2);
    CombinedFactors(psiP, dpsiP, psiPQ, dpsiPQ, p, q, n1, n2, dphi[..]);
  }

  /** Values and derivatives of one of the two factors. */
  method FactorsAt(n: nat, a: nat, x: seq<real>) returns (values: seq<real>, derivatives: seq<real>)
    ensures AreFactors(values, derivatives, n, a, x)
  {
    values := ValuesAt(n, a, 0, x);
    derivatives := DerivativesAt(n, a, 0, x);
  }

  ghost predicate AreFactors(values: seq<real>, derivatives: seq<real>, n: nat, a: nat, x: seq<real>) {
    ValuesOf(values, n, a, 0, x) && DerivativesOf(derivatives, n, a, 0, x)
  }

  /** One derivative value for every point. */
  ghost predicate AreDPhi2(p: nat, q: nat, n1: seq<Coordinate>, n2: seq<real>, dphi: seq<real>)
    requires Collapsed(n1, n2)
  {
    |dphi| == |n1| && forall pt | 0 <= pt < |n1| :: IsDPhi2(p, q, n1[pt], n2[pt], dphi[pt])
  }

  /** dphi combines the factors point by point. */
  ghost predicate Combines(psiP: seq<real>, dpsiP: seq<real>, psiPQ: seq<real>, dpsiPQ: seq<real>, p: nat, q: nat,
                           n1: seq<Coordinate>, n2: seq<real>, dphi: seq<real>)
    requires Collapsed(n1, n2) && |psiP| == |dpsiP| == |psiPQ| == |dpsiPQ| == |n1|
  {
    && |dphi| == |n1|
    && forall pt | 0 <= pt < |n1| ::
         dphi[pt] == DPhi2OrVertex(psiP[pt], dpsiP[pt], psiPQ[pt], dpsiPQ[pt], p, q, n1[pt], n2[pt])
  }

  method CombineDPhi2(psiP: seq<real>, dpsiP: seq<real>, psiPQ: seq<real>, dpsiPQ: seq<real>, p: nat, q: nat,
                      n1: seq<Coordinate>, n2: seq<real>) returns (dphi: array<real>)
    requires Collapsed(n1, n2) && |psiP| == |dpsiP| == |psiPQ| == |dpsiPQ| == |n1|
    ensures Combines(psiP, dpsiP, psiPQ, dpsiPQ, p, q, n1, n2, dphi[..])
  {
    dphi := new real[|n1|];
    for pt := 0 to |n1|
      invariant forall j | 0 <= j < pt ::
                  dphi[j] == DPhi2OrVertex(psiP[j], dpsiP[j], psiPQ[j], dpsiPQ[j], p, q, n1[j], n2[j])
    {
      dphi[pt] := DPhi2OrVertex(psiP[pt], dpsiP[pt], psiPQ[pt], dpsiPQ[pt], p, q, n1[pt], n2[pt]);
    }
  }

  lemma CombinedFactors(psiP: seq<real>, dpsiP: seq<real>, psiPQ: seq<real>, dpsiPQ: seq<real>, p: nat, q: nat,
                        n1: seq<Coordinate>, n2: seq<real>, dphi: seq<real>)
    requires Collapsed(n1, n2)
    requires AreFactors(psiP, dpsiP, p, 0, Numbers(n1)) && AreFactors(psiPQ, dpsiPQ, q, 2 * p + 1, n2)
    requires Combines(psiP, dpsiP, psiPQ, dpsiPQ, p, q, n1, n2, dphi)
    ensures AreDPhi2(p, q, n1, n2, dphi)
  {
    forall pt | 0 <= pt < |n1|
      ensures IsDPhi2(p, q, n1[pt], n2[pt], dphi[pt])
    {
      DPhi2Matches(psiP[pt], dpsiP[pt], psiPQ[pt], dpsiPQ[pt], p, q, n1[pt], n2[pt]);
    }
  }

  lemma DPhi2Matches(psiP: real, dpsiP: real, psiPQ: real, dpsiPQ: real, p: nat, q: nat, n1: Coordinate, n2: real)
    requires (n1.NaN? || n2 != 1.0) && psiPQ == Value(q, 2 * p + 1, 0, n2) && dpsiPQ == Derivative(q, 2 * p + 1, 0, n2)
    requires n1.Number? ==> psiP == Value(p, 0, 0, n1.x) && dpsiP == Derivative(p, 0, 0, n1.x)
    ensures IsDPhi2(p, q, n1, n2, DPhi2OrVertex(psiP, dpsiP, psiPQ, dpsiPQ, p, q, n1, n2))
  {
  }

  function DPhi2OrVertex(psiP: real, dpsiP: real, psiPQ: real, dpsiPQ: real, p: nat, q: nat, n1: Coordinate,
                         n2: real): real
    requires n1.NaN? || n2 != 1.0
  {
    if n1.Number? then DPhi2From(psiP, dpsiP, psiPQ, dpsiPQ, p, n1.x, n2)
    else if p == 0 then 3.0 * SingularDPhi2(q).1 else if p == 1 then SingularDPhi2(q + 1).1 else 0.0
  }

  // ----- the collapsed vertex -----

  lemma {:induction false} PowOfZero(n: nat)
    ensures Pow(0.0, n) == if n == 0 then 1.0 else 0.0
  {
  }

  lemma {:induction false} ChooseOneLess(n: nat)
    ensures Choose(n + 1, n) == n + 1 && Choose(n, n) == 1
  {
    ChooseNone(n, n + 1);
    if n > 0 {
      ChooseOneLess(n - 1);
      ChooseNone(n - 1, n);
    }
  }

  /** The first recursion walks down Pascal's triangle. */
  lemma {:induction false} SingularDPhi1IsBinomial(q: nat)
    ensures SingularDPhi1(q) == (Choose(q + 3, q + 1) as real, Choose(q + 3, q) as real)
  {
    ChooseOneLess(q + 1);
    if q > 0 {
      SingularDPhi1IsBinomial(q - 1);
    } else {
      ChooseOneLess(2);
    }
  }

  /** So does the second, at half the numbers. */
  lemma {:induction false} SingularDPhi2IsBinomial(q: nat)
    ensures SingularDPhi2(q).0 == Choose(q + 2, q) as real / 2.0
    ensures SingularDPhi2(q).1 == if q == 0 then 0.0 else Choose(q + 2, q - 1) as real / 2.0
  {
    ChooseOneLess(q);
    if q > 0 {
      SingularDPhi2IsBinomial(q - 1);
    }
  }

  /** (n + 1 - k) C(n + 1, k) = (n + 1) C(n, k). */
  lemma ChooseUp(n: nat, k: nat)
    requires k <= n
    ensures (n + 1 - k) * Choose(n + 1, k) == (n + 1) * Choose(n, k)
  {
    if k > 0 {
      ChooseNext(n, k - 1);
      var x, y := Choose(n, k - 1), Choose(n, k);
      assert (n + 1 - k) * (x + y) == (n + 1 - k) * x + (n + 1 - k) * y;
    }
  }

  /** The special value of a basis function is its general formula at the vertex, whatever the undefined coordinate. */
  lemma PhiExtends(p: nat, q: nat, n1: real)
    ensures Phi(p, q, n1, 1.0) == PhiAtVertex(p, q)
  {
    PowOfZero(p);
    ValueAtOne(q, 2 * p + 1, 0);
    ChooseOneLess(q);
    assert p == 0 ==> Value(p, 0, 0, n1) == 1.0;
  }

  /** The derivatives with the division by 1 - n2 carried out: polynomials, defined at the vertex as well. */
  function DPhi1Polynomial(dpsiP: real, psiPQ: real, p: nat, n2: real): real {
    dpsiP * PowBelow(Half(n2), p) * psiPQ
  }

  function DPhi2Polynomial(psiP: real, dpsiP: real, psiPQ: real, dpsiPQ: real, p: nat, n1: real, n2: real): real {
    ((1.0 + n1) / 2.0) * dpsiP * PowBelow(Half(n2), p) * psiPQ
    + psiP * (Pow(Half(n2), p) * dpsiPQ - (p as real / 2.0) * PowBelow(Half(n2), p) * psiPQ)
  }

  lemma HalfCancels(n2: real, p: nat)
    requires n2 != 1.0 && p > 0
    ensures (2.0 / (1.0 - n2)) * Pow(Half(n2), p) == PowBelow(Half(n2), p)
  {
    var h := Half(n2);
    PowSplit(h, p);
    Undo(1.0 - n2, h, PowBelow(h, p));
  }

  lemma PowSplit(x: real, n: nat)
    requires n > 0
    ensures Pow(x, n) == Times(x, PowBelow(x, n))
  {
  }

  lemma Undo(c: real, h: real, x: real)
    requires c != 0.0 && h == c / 2.0
    ensures (2.0 / c) * Times(h, x) == x
  {
    assert (2.0 / c) * c == 2.0;
    assert (2.0 / c) * Times(h, x) == ((2.0 / c) * c) * (x / 2.0);
  }

  lemma Regroup(f: real, x: real, h: real, y: real)
    ensures f * x * h * y == x * (f * h) * y
  {
  }

  /** Away from the vertex the formulas of the program are those polynomials. */
  lemma DerivativesArePolynomials(p: nat, q: nat, n1: real, n2: real)
    requires n2 != 1.0
    ensures DPhi1(p, q, n1, n2) == DPhi1Polynomial(Derivative(p, 0, 0, n1), Value(q, 2 * p + 1, 0, n2), p, n2)
    ensures DPhi2(p, q, n1, n2)
            == DPhi2Polynomial(Value(p, 0, 0, n1), Derivative(p, 0, 0, n1), Value(q, 2 * p + 1, 0, n2),
                                                   Derivative(q, 2 * p + 1, 0, n2), p, n1, n2)
  {
    FormulasArePolynomials(Value(p, 0, 0, n1), Derivative(p, 0, 0, n1), Value(q, 2 * p + 1, 0, n2),
                           Derivative(q, 2 * p + 1, 0, n2), p, n1, n2);
  }

  lemma FormulasArePolynomials(psiP: real, dpsiP: real, psiPQ: real, dpsiPQ: real, p: nat, n1: real, n2: real)
    requires n2 != 1.0 && (p == 0 ==> dpsiP == 0.0)
    ensures DPhi1From(dpsiP, psiPQ, p, n2) == DPhi1Polynomial(dpsiP, psiPQ, p, n2)
    ensures DPhi2From(psiP, dpsiP, psiPQ, dpsiPQ, p, n1, n2) == DPhi2Polynomial(psiP, dpsiP, psiPQ, dpsiPQ, p, n1, n2)
  {
    var c, h := 1.0 - n2, Pow(Half(n2), p);
    Regroup(2.0 / c, dpsiP, h, psiPQ);
    assert (1.0 + n1) / c == ((1.0 + n1) / 2.0) * (2.0 / c);
    Regroup(2.0 / c, ((1.0 + n1) / 2.0) * dpsiP, h, psiPQ);
    if p > 0 {
      HalfCancels(n2, p);
    }
  }

  /** The derivative of the p = 0 functions at the vertex, by the second recursion. */
  lemma EndDerivative(q: nat)
    ensures Derivative(q, 1, 0, 1.0) == 3.0 * SingularDPhi2(q).1
  {
    SingularDPhi2IsBinomial(q);
    if q > 0 {
      ValueAtOne(q - 1, 2, 1);
      ChooseUp(q + 1, q - 1);
      ThreeHalves(Choose(q + 2, q - 1), Choose(q + 1, q - 1), q + 2);
      assert Binomial(q - 1, 2) == Choose(q + 1, q - 1) as real;
    }
  }

  lemma ThreeHalves(x: nat, y: nat, n: nat)
    requires 3 * x == n * y
    ensures Times(y as real, n as real / 2.0) == 3.0 * (x as real / 2.0)
  {
    ProductAsReal(n, y);
  }

  /** At the vertex only the lowest powers survive. */
  lemma PolynomialsAtVertex(psiP: real, dpsiP: real, psiPQ: real, dpsiPQ: real, p: nat, n1: real)
    ensures p == 0 ==> DPhi1Polynomial(dpsiP, psiPQ, p, 1.0) == 0.0
    ensures p == 0 ==> DPhi2Polynomial(psiP, dpsiP, psiPQ, dpsiPQ, p, n1, 1.0) == psiP * dpsiPQ
    ensures p == 1 && psiP == n1 && dpsiP == 1.0 ==> DPhi1Polynomial(dpsiP, psiPQ, p, 1.0) == psiPQ
    ensures p == 1 && psiP == n1 && dpsiP == 1.0
            ==> DPhi2Polynomial(psiP, dpsiP, psiPQ, dpsiPQ, p, n1, 1.0) == psiPQ / 2.0
    ensures p > 1 ==> DPhi1Polynomial(dpsiP, psiPQ, p, 1.0) == 0.0
    ensures p > 1 ==> DPhi2Polynomial(psiP, dpsiP, psiPQ, dpsiPQ, p, n1, 1.0) == 0.0
  {
    PowOfZero(p);
    if p > 0 {
      PowOfZero(p - 1);
    }
  }

  /**
   The derivatives' special values are the values of those polynomials at the vertex, whatever the undefined
   coordinate.
   */
  lemma DerivativesExtend(p: nat, q: nat, n1: real)
    ensures DPhi1Polynomial(Derivative(p, 0, 0, n1), Value(q, 2 * p + 1, 0, 1.0), p, 1.0) == DPhi1AtVertex(p, q)
    ensures DPhi2Polynomial(Value(p, 0, 0, n1), Derivative(p, 0, 0, n1), Value(q, 2 * p + 1, 0, 1.0),
                            Derivative(q, 2 * p + 1, 0, 1.0), p, n1, 1.0) == DPhi2AtVertex(p, q)
  {
    PolynomialsAtVertex(Value(p, 0, 0, n1), Derivative(p, 0, 0, n1), Value(q, 2 * p + 1, 0, 1.0),
                        Derivative(q, 2 * p + 1, 0, 1.0), p, n1);
    if p == 0 {
      EndDerivative(q);
      assert Value(0, 0, 0, n1) == 1.0;
    } else if p == 1 {
      ValueAtOne(q, 3, 0);
      SingularDPhi1IsBinomial(q);
      RecursionsAgree(q);
      FirstDegree(n1);
    }
  }

  /** For p = 1 both recursions agree up to a factor of two. */
  lemma RecursionsAgree(q: nat)
    ensures SingularDPhi1(q).1 == 2.0 * SingularDPhi2(q + 1).1
  {
    SingularDPhi1IsBinomial(q);
    SingularDPhi2IsBinomial(q + 1);
  }

  lemma FirstDegree(x: real)
    ensures Value(1, 0, 0, x) == x && Derivative(1, 0, 0, x) == 1.0
  {
    JacobiIsValid(0, 0);
    assert JacobiRecurrence(0, 0).first(x) == x;
  }
}
