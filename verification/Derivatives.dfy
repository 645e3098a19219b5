/**
 The weak bathymetry derivatives of the Green-Naghdi preprocessor as mathematics: what one pass over a
 mesh computes on an element, and why the order in which faces are visited does not matter.
 The quadrature and basis operators are parameters; arithmetic is over the reals.
 */
module Derivatives {
  import opened Sequences
  import opened Sides

  /** Directions, and the number of terms of the widest exchanged quantity. */
  const N_DIMENSIONS: nat := 2
  const N_DDBATH_TERMS: nat := 4

  /** One value per row and degree of freedom, or per row and Gauss point. */
  type Rows = seq<seq<real>>

  /** The elements and, for every interior face seen from one element, the same face seen from the other. */
  datatype Mesh = Mesh(elements: set<nat>, nb: map<Side, Side>) {
    predicate Has(s: Side) {
      s.elt in elements && s.face < 3
    }

    ghost predicate WellFormed() {
      forall s | s in nb :: Has(s) && nb[s] in nb && nb[nb[s]] == s && nb[s].elt != s.elt
    }
  }

  /**
   Quadrature and basis operators, with the number of Gauss points of a face and of degrees of freedom of an
   element.  `bath` values come from the mesh input.  An operator belongs to a face, not to the kind of object
   (interface, boundary, distributed boundary) that the face becomes.
   */
  datatype Ops = Ops(
    ngp: Side -> nat,
    ndof: nat -> nat,
    bathInside: nat -> seq<real>,
    bathTrace: Side -> seq<real>,
    integrationDPhi: (nat, nat, seq<real>) -> seq<real>,
    integrationPhi: (Side, seq<real>) -> seq<real>,
    normal: (Side, nat) -> seq<real>,
    minv: (nat, seq<real>) -> seq<real>,
    ugp: (nat, seq<real>) -> seq<real>,
    ugpTrace: (Side, seq<real>) -> seq<real>)
  {
    ghost predicate WellFormed(m: Mesh) {
      && (forall s | s in m.nb :: ngp(m.nb[s]) == ngp(s))
      && (forall s :: |bathTrace(s)| == ngp(s))
      && (forall s, row :: |ugpTrace(s, row)| == ngp(s))
      && (forall s, dir :: |normal(s, dir)| == ngp(s))
      && (forall e, dir, values :: |integrationDPhi(e, dir, values)| == ndof(e))
      && (forall s, values :: |integrationPhi(s, values)| == ndof(s.elt))
    }
  }

  /** Rows of the quantity differentiated in pass r: the bathymetry, then its first and second derivatives. */
  function Terms(r: nat): nat {
    if r == 0 then 1 else 2 * Terms(r - 1)
  }

  /** The quantity at an element's interior Gauss points. */
  function Inside(o: Ops, r: nat, e: nat, rows: Rows): (v: Rows)
    ensures r > 0 ==> |v| == |rows|
  {
    if r == 0 then [o.bathInside(e)] else seq(|rows|, k requires 0 <= k < |rows| => o.ugp(e, rows[k]))
  }

  /** The quantity at a face's Gauss points, seen from one side. */
  function Trace(o: Ops, r: nat, s: Side, rows: Rows): (v: Rows)
    ensures r > 0 ==> |v| == |rows|
  {
    if r == 0 then [o.bathTrace(s)] else seq(|rows|, k requires 0 <= k < |rows| => o.ugpTrace(s, rows[k]))
  }

  /** Entries of vectors and rows of matrices; sizes agree in every use, a missing entry would count as 0. */
  function At(v: seq<real>, i: int): real {
    if 0 <= i < |v| then v[i] else 0.0
  }

  function Row(rows: Rows, k: nat): seq<real> {
    if k < |rows| then rows[k] else []
  }

  ghost predicate Sized(rows: Rows, n: nat, width: nat) {
    |rows| == n && forall k | 0 <= k < n :: |rows[k]| == width
  }

  /** The mean of both traces; the far side runs through the Gauss points backwards. */
  function Average(own: Rows, far: Rows, ngp: nat): (v: Rows)
    ensures |v| == |own|
  {
    seq(|own|, k requires 0 <= k < |own| =>
      seq(ngp, gp requires 0 <= gp < ngp => (At(own[k], gp) + At(Row(far, k), ngp - gp - 1)) / 2.0))
  }

  function Product(a: seq<real>, b: seq<real>): (v: seq<real>)
    ensures |v| == |a|
  {
    seq(|a|, i requires 0 <= i < |a| => a[i] * At(b, i))
  }

  function Negated(a: seq<real>): (v: seq<real>)
    ensures |v| == |a|
  {
    seq(|a|, i requires 0 <= i < |a| => -a[i])
  }

  function Added(a: seq<real>, b: seq<real>): (v: seq<real>)
    ensures |v| == |a|
  {
    seq(|a|, i requires 0 <= i < |a| => a[i] + At(b, i))
  }

  /** Row 2k + dir starts as minus the interior integral of term k against the derivative in direction dir. */
  function Volume(o: Ops, e: nat, inside: Rows): (v: Rows)
    ensures |v| == N_DIMENSIONS * |inside|
  {
    seq(N_DIMENSIONS * |inside|, i requires 0 <= i < N_DIMENSIONS * |inside| =>
      Negated(o.integrationDPhi(e, i % N_DIMENSIONS, inside[i / N_DIMENSIONS])))
  }

  /** What a face adds to row 2k + dir: the face integral of term k times the normal in direction dir. */
  function Flux(o: Ops, s: Side, hat: Rows, i: nat): seq<real> {
    o.integrationPhi(s, Product(Row(hat, i / N_DIMENSIONS), o.normal(s, i % N_DIMENSIONS)))
  }

  function WithFlux(o: Ops, acc: Rows, s: Side, hat: Rows): (v: Rows)
    ensures |v| == |acc|
  {
    seq(|acc|, i requires 0 <= i < |acc| => Added(acc[i], Flux(o, s, hat, i)))
  }

  function Minv(o: Ops, e: nat, acc: Rows): (v: Rows)
    ensures |v| == |acc|
  {
    seq(|acc|, i requires 0 <= i < |acc| => o.minv(e, acc[i]))
  }

  // ----- faces may be visited in any order -----

  /** The values one side of a face contributes with. */
  datatype Contribution = Contribution(side: Side, hat: Rows)

  /** An element's rows; an element without any has none. */
  function Get<K>(m: map<K, Rows>, k: K): Rows {
    if k in m then m[k] else []
  }

  /** Adds the first k contributions to the elements' rows, one after the other. */
  function AddFaces(o: Ops, acc: map<nat, Rows>, cs: seq<Contribution>, k: nat): map<nat, Rows>
    requires k <= |cs|
  {
    Fold((a: map<nat, Rows>, c: Contribution) => AddFace(o, a, c), acc, cs, k)
  }

  function AddFace(o: Ops, acc: map<nat, Rows>, c: Contribution): map<nat, Rows> {
    acc[c.side.elt := WithFlux(o, Get(acc, c.side.elt), c.side, c.hat)]
  }

  /** What face f adds to entry d of row i of element e, if it has been visited. */
  function Term(o: Ops, e: nat, hats: seq<Rows>, visited: set<nat>, f: nat, i: nat, d: nat): real
    requires f < |hats|
  {
    if f in visited then At(Flux(o, Side(e, f), hats[f], i), d) else 0.0
  }

  /** An element's rows with the visited faces added, in no particular order. */
  function FaceSum(o: Ops, e: nat, base: Rows, hats: seq<Rows>, visited: set<nat>): (v: Rows)
    requires |hats| == 3
    ensures |v| == |base|
  {
    seq(|base|, i requires 0 <= i < |base| =>
      seq(|base[i]|, d requires 0 <= d < |base[i]| =>
        base[i][d] + Term(o, e, hats, visited, 0, i, d) + Term(o, e, hats, visited, 1, i, d)
        + Term(o, e, hats, visited, 2, i, d)))
  }

  /** The faces of element e among the first k contributions. */
  function Visited(cs: seq<Contribution>, k: nat, e: nat): set<nat>
    requires k <= |cs|
  {
    set i | 0 <= i < k && cs[i].side.elt == e :: cs[i].side.face
  }

  ghost predicate NoFaceTwice(cs: seq<Contribution>) {
    forall i, j | 0 <= i < j < |cs| :: cs[i].side != cs[j].side
  }

  lemma FaceSumEmpty(o: Ops, e: nat, base: Rows, hats: seq<Rows>)
    requires |hats| == 3
    ensures FaceSum(o, e, base, hats, {}) == base
  {
    var v := FaceSum(o, e, base, hats, {});
    forall i | 0 <= i < |base|
      ensures v[i] == base[i]
    {
    }
  }

  lemma FaceSumStep(o: Ops, e: nat, base: Rows, hats: seq<Rows>, visited: set<nat>, f: nat)
    requires |hats| == 3 && f < 3 && f !in visited
    ensures WithFlux(o, FaceSum(o, e, base, hats, visited), Side(e, f), hats[f])
         == FaceSum(o, e, base, hats, visited + {f})
  {
    var before, after := FaceSum(o, e, base, hats, visited), FaceSum(o, e, base, hats, visited + {f});
    var stepped := WithFlux(o, before, Side(e, f), hats[f]);
    forall i | 0 <= i < |base|
      ensures stepped[i] == after[i]
    {
      forall d | 0 <= d < |base[i]|
        ensures stepped[i][d] == after[i][d]
      {
        assert before[i][d] + At(Flux(o, Side(e, f), hats[f], i), d) == stepped[i][d];
      }
    }
  }

  /** One more contribution visits its face for the first time, if it is the element's. */
  lemma VisitedNext(cs: seq<Contribution>, k: nat, e: nat)
    requires k < |cs| && NoFaceTwice(cs)
    ensures Visited(cs, k + 1, e) == Visited(cs, k, e) + if cs[k].side.elt == e then {cs[k].side.face} else {}
    ensures cs[k].side.elt == e ==> cs[k].side.face !in Visited(cs, k, e)
  {
  }

  /** After any sequence of face visits, an element holds its start value plus each visited face once. */
  lemma {:induction false} VisitsAddUp(o: Ops, acc: map<nat, Rows>, cs: seq<Contribution>, k: nat, e: nat,
                                       hats: seq<Rows>)
    requires k <= |cs| && NoFaceTwice(cs) && |hats| == 3
    requires forall i | 0 <= i < |cs| :: cs[i].side.face < 3
    requires forall i | 0 <= i < k && cs[i].side.elt == e :: cs[i].hat == hats[cs[i].side.face]
    ensures Get(AddFaces(o, acc, cs, k), e) == FaceSum(o, e, Get(acc, e), hats, Visited(cs, k, e))
  {
    if k == 0 {
      FaceSumEmpty(o, e, Get(acc, e), hats);
      assert Visited(cs, 0, e) == {};
    } else {
      VisitsAddUp(o, acc, cs, k - 1, e, hats);
      VisitedNext(cs, k - 1, e);
      var c := cs[k - 1];
      assert AddFaces(o, acc, cs, k) == AddFace(o, AddFaces(o, acc, cs, k - 1), c);
      if c.side.elt == e {
        assert c.side == Side(e, c.side.face) && c.hat == hats[c.side.face];
        FaceSumStep(o, e, Get(acc, e), hats, Visited(cs, k - 1, e), c.side.face);
      } else {
        assert Visited(cs, k, e) == Visited(cs, k - 1, e);
      }
    }
  }

  // ----- what the three passes compute -----

  /** The values on a face: both sides' mean on an interior face, the own trace on a boundary. */
  ghost function Hat(m: Mesh, o: Ops, r: nat, s: Side, own: Rows, far: Rows): Rows {
    if s in m.nb then Average(Trace(o, r, s, own), Trace(o, r, m.nb[s], far), o.ngp(s)) else Trace(o, r, s, own)
  }

  /** The derivatives after r passes on element e, with no reference to meshes being cut or loops being ordered. */
  ghost function Derivative(m: Mesh, o: Ops, r: nat, e: nat): Rows
    decreases r, 0
  {
    if r == 0 then [] else
      Minv(o, e, FaceSum(o, e, Volume(o, e, Inside(o, r - 1, e, Derivative(m, o, r - 1, e))),
                         Hats(m, o, r - 1, e), {0, 1, 2}))
  }

  ghost function Hats(m: Mesh, o: Ops, r: nat, e: nat): (v: seq<Rows>)
    ensures |v| == 3
    decreases r, 2
  {
    [HatAt(m, o, r, Side(e, 0)), HatAt(m, o, r, Side(e, 1)), HatAt(m, o, r, Side(e, 2))]
  }

  ghost function HatAt(m: Mesh, o: Ops, r: nat, s: Side): Rows
    decreases r, 1
  {
    Hat(m, o, r, s, Derivative(m, o, r, s.elt), if s in m.nb then Derivative(m, o, r, m.nb[s].elt) else [])
  }

  function Reversed(rows: Rows, ngp: nat): (v: Rows)
    ensures |v| == |rows|
  {
    seq(|rows|, k requires 0 <= k < |rows| => seq(ngp, gp requires 0 <= gp < ngp => At(rows[k], ngp - gp - 1)))
  }

  lemma AverageAt(own: Rows, far: Rows, ngp: nat, k: nat, g: nat)
    requires k < |own| && g < ngp
    ensures |Average(own, far, ngp)[k]| == ngp
    ensures Average(own, far, ngp)[k][g] == (At(own[k], g) + At(Row(far, k), ngp - g - 1)) / 2.0
  {
  }

  lemma ReversedAt(rows: Rows, ngp: nat, k: nat, g: nat)
    requires k < |rows| && g < ngp
    ensures |Reversed(rows, ngp)[k]| == ngp && Reversed(rows, ngp)[k][g] == At(rows[k], ngp - g - 1)
  {
  }

  /** The face value is single-valued: averaged from either side, it is the same value at the same physical point. */
  lemma AverageIsSingleValued(own: Rows, far: Rows, ngp: nat)
    requires |own| == |far|
    ensures Average(far, own, ngp) == Reversed(Average(own, far, ngp), ngp)
  {
    var v, w, a := Average(far, own, ngp), Reversed(Average(own, far, ngp), ngp), Average(own, far, ngp);
    forall k | 0 <= k < |far|
      ensures v[k] == w[k]
    {
      assert |a[k]| == ngp && w[k] == seq(ngp, gp requires 0 <= gp < ngp => At(a[k], ngp - gp - 1));
      forall gp | 0 <= gp < ngp
        ensures v[k][gp] == w[k][gp]
      {
        var back := ngp - gp - 1;
        assert a[k][back] == (At(own[k], back) + At(Row(far, k), ngp - back - 1)) / 2.0;
        assert v[k][gp] == (At(far[k], gp) + At(Row(own, k), back)) / 2.0;
      }
    }
  }
}
