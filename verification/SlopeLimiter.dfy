/**
 The Cockburn-Shu slope limiter: characteristic minmod of midpoint differences, rescaling to a zero sum, and rebuilding
 of the vertex values.  Arithmetic is over the reals; `wave` is the speed of the characteristic waves,
     a function of depth.
 */
module SlopeLimiter {
  /** One value a variable, a vertex or a side. */
  datatype Triple = Triple(x0: real, x1: real, x2: real) {
    function At(i: nat): real
      requires i < 3
    {
      if i == 0 then x0 else if i == 1 then x1 else x2
    }

    function Sum(): real {
      x0 + x1 + x2
    }

    function Dot(y: Triple): real {
      x0 * y.x0 + x1 * y.x1 + x2 * y.x2
    }

    function Minus(y: Triple): Triple {
      Triple(x0 - y.x0, x1 - y.x1, x2 - y.x2)
    }

    function Plus(y: Triple): Triple {
      Triple(x0 + y.x0, x1 + y.x1, x2 + y.x2)
    }

    function Scaled(a: real): Triple {
      Triple(a * x0, a * x1, a * x2)
    }
  }

  /** Three rows. */
  datatype Matrix = Matrix(r0: Triple, r1: Triple, r2: Triple) {
    function Times(v: Triple): Triple {
      Triple(r0.Dot(v), r1.Dot(v), r2.Dot(v))
    }

    function Row(i: nat): Triple
      requires i < 3
    {
      if i == 0 then r0 else if i == 1 then r1 else r2
    }

    function Column(j: nat): Triple
      requires j < 3
    {
      Triple(r0.At(j), r1.At(j), r2.At(j))
    }
  }

  // ----- characteristic variables -----

  function R(c: real, u: real, v: real, nx: real, ny: real): Matrix {
    Matrix(Triple(1.0, 0.0, 1.0), Triple(u - c * nx, -ny, u + c * nx), Triple(v - c * ny, nx, v + c * ny))
  }

  function InvR(c: real, u: real, v: real, nx: real, ny: real): Matrix
    requires c != 0.0
  {
    var un := u * nx + v * ny;
    Matrix(Triple((c + un) / (2.0 * c), -nx / (2.0 * c), -ny / (2.0 * c)),
           Triple(u * ny - v * nx, -ny, nx),
           Triple((c - un) / (2.0 * c), nx / (2.0 * c), ny / (2.0 * c)))
  }

  /** The momentum of a vector along the normal and across it, relative to the velocity. */
  function NormalPart(u: real, v: real, nx: real, ny: real, w: Triple): real {
    nx * w.x1 + ny * w.x2 - (u * nx + v * ny) * w.x0
  }

  function TangentialPart(u: real, v: real, nx: real, ny: real, w: Triple): real {
    (u * ny - v * nx) * w.x0 - ny * w.x1 + nx * w.x2
  }

  lemma SplitWaves(c: real, un: real, nx: real, ny: real, w: Triple, h: real)
    requires c != 0.0 && h == 1.0 / (2.0 * c)
    ensures (c + un) / (2.0 * c) == 0.5 + h * un && (c - un) / (2.0 * c) == 0.5 - h * un
    ensures -nx / (2.0 * c) == -(h * nx) && -ny / (2.0 * c) == -(h * ny)
    ensures nx / (2.0 * c) == h * nx && ny / (2.0 * c) == h * ny
  {
    assert 2.0 * c * h == 1.0;
  }

  lemma MergeWaves(c: real, u: real, v: real, nx: real, ny: real, k0: real, k1: real, k2: real, a: real, normal: real)
    requires k0 + k2 == a && c * (k2 - k0) == normal
    ensures (u - c * nx) * k0 + -ny * k1 + (u + c * nx) * k2 == u * a + nx * normal - ny * k1
    ensures (v - c * ny) * k0 + nx * k1 + (v + c * ny) * k2 == v * a + ny * normal + nx * k1
  {
    assert (u - c * nx) * k0 + (u + c * nx) * k2 == u * (k0 + k2) + nx * (c * (k2 - k0));
    assert (v - c * ny) * k0 + (v + c * ny) * k2 == v * (k0 + k2) + ny * (c * (k2 - k0));
  }

  /** The normal and tangential parts of a vector, put back together. */
  lemma TurnBack(u: real, v: real, nx: real, ny: real, a: real, b: real, d: real)
    ensures var n := nx * nx + ny * ny;
            var tangential := (u * ny - v * nx) * a - ny * b + nx * d;
            var normal := nx * b + ny * d - (u * nx + v * ny) * a;
            && u * a + nx * normal - ny * tangential == u * (1.0 - n) * a + n * b
            && v * a + ny * normal + nx * tangential == v * (1.0 - n) * a + n * d
  {
    var tangential := (u * ny - v * nx) * a - ny * b + nx * d;
    var normal := nx * b + ny * d - (u * nx + v * ny) * a;
    assert nx * normal == nx * nx * b + nx * ny * d - (u * nx * nx * a + v * nx * ny * a);
    assert ny * tangential == u * ny * ny * a - v * nx * ny * a - ny * ny * b + nx * ny * d;
    assert ny * normal == nx * ny * b + ny * ny * d - (u * nx * ny * a + v * ny * ny * a);
    assert nx * tangential == u * nx * ny * a - v * nx * nx * a - nx * ny * b + nx * nx * d;
  }

  lemma Characteristics(c: real, u: real, v: real, nx: real, ny: real, w: Triple)
    requires c != 0.0
    ensures var k := InvR(c, u, v, nx, ny).Times(w);
            && k.x0 + k.x2 == w.x0 && k.x1 == TangentialPart(u, v, nx, ny, w)
            && c * (k.x2 - k.x0) == NormalPart(u, v, nx, ny, w)
  {
    var un, h := u * nx + v * ny, 1.0 / (2.0 * c);
    assert 2.0 * c * h == 1.0;
    SplitWaves(c, un, nx, ny, w, h);
    var k, normal := InvR(c, u, v, nx, ny).Times(w), NormalPart(u, v, nx, ny, w);
    assert k.x0 == w.x0 / 2.0 - h * normal && k.x2 == w.x0 / 2.0 + h * normal;
    assert c * (k.x2 - k.x0) == (2.0 * c * h) * normal;
  }

  /** A vector from its first component, its normal and its tangential part. */
  function Turned(u: real, v: real, nx: real, ny: real, a: real, normal: real, tangential: real): Triple {
    Triple(a, u * a + nx * normal - ny * tangential, v * a + ny * normal + nx * tangential)
  }

  lemma WavesMerged(c: real, u: real, v: real, nx: real, ny: real, k: Triple, a: real, normal: real)
    requires k.x0 + k.x2 == a && c * (k.x2 - k.x0) == normal
    ensures R(c, u, v, nx, ny).Times(k) == Turned(u, v, nx, ny, a, normal, k.x1)
  {
    MergeWaves(c, u, v, nx, ny, k.x0, k.x1, k.x2, a, normal);
  }

  lemma PartsTurnedBack(u: real, v: real, nx: real, ny: real, w: Triple)
    ensures var n := nx * nx + ny * ny;
            var normal, tangential := NormalPart(u, v, nx, ny, w), TangentialPart(u, v, nx, ny, w);
            && u * w.x0 + nx * normal - ny * tangential == u * (1.0 - n) * w.x0 + n * w.x1
            && v * w.x0 + ny * normal + nx * tangential == v * (1.0 - n) * w.x0 + n * w.x2
  {
    TurnBack(u, v, nx, ny, w.x0, w.x1, w.x2);
  }

  lemma PartsTurned(u: real, v: real, nx: real, ny: real, w: Triple)
    ensures var n := nx * nx + ny * ny;
            Turned(u, v, nx, ny, w.x0, NormalPart(u, v, nx, ny, w), TangentialPart(u, v, nx, ny, w))
            == Triple(w.x0, u * (1.0 - n) * w.x0 + n * w.x1, v * (1.0 - n) * w.x0 + n * w.x2)
  {
    PartsTurnedBack(u, v, nx, ny, w);
    var n := nx * nx + ny * ny;
    TurnedIs(u, v, nx, ny, w.x0, NormalPart(u, v, nx, ny, w), TangentialPart(u, v, nx, ny, w),
             u * (1.0 - n) * w.x0 + n * w.x1, v * (1.0 - n) * w.x0 + n * w.x2);
  }

  lemma TurnedIs(u: real, v: real, nx: real, ny: real, a: real, normal: real, tangential: real, x1: real, x2: real)
    requires u * a + nx * normal - ny * tangential == x1 && v * a + ny * normal + nx * tangential == x2
    ensures Turned(u, v, nx, ny, a, normal, tangential) == Triple(a, x1, x2)
  {
  }

  /** R undoes InvR on one vector up to the length of the normal. */
  lemma BackFromCharacteristics(c: real, u: real, v: real, nx: real, ny: real, w: Triple)
    requires c != 0.0
    ensures var n := nx * nx + ny * ny;
            R(c, u, v, nx, ny).Times(InvR(c, u, v, nx, ny).Times(w))
            == Triple(w.x0, u * (1.0 - n) * w.x0 + n * w.x1, v * (1.0 - n) * w.x0 + n * w.x2)
  {
    Characteristics(c, u, v, nx, ny, w);
    WavesMerged(c, u, v, nx, ny, InvR(c, u, v, nx, ny).Times(w), w.x0, NormalPart(u, v, nx, ny, w));
    PartsTurned(u, v, nx, ny, w);
  }

  predicate UnitNormal(nx: real, ny: real) {
    nx * nx + ny * ny == 1.0
  }

  /** The matrices undo each other on one vector. */
  predicate Restores(r: Matrix, inv: Matrix, w: Triple) {
    r.Times(inv.Times(w)) == w
  }

  lemma UnitNormalRestores(c: real, u: real, v: real, nx: real, ny: real, w: Triple)
    requires c != 0.0 && UnitNormal(nx, ny)
    ensures Restores(R(c, u, v, nx, ny), InvR(c, u, v, nx, ny), w)
  {
    BackFromCharacteristics(c, u, v, nx, ny, w);
    assert u * (1.0 - (nx * nx + ny * ny)) * w.x0 == 0.0 && v * (1.0 - (nx * nx + ny * ny)) * w.x0 == 0.0;
  }

  /** The transformations are inverse to each other exactly for unit normals. */
  lemma InverseIffUnitNormal(c: real, u: real, v: real, nx: real, ny: real)
    requires c != 0.0
    ensures (forall w: Triple :: Restores(R(c, u, v, nx, ny), InvR(c, u, v, nx, ny), w)) <==> UnitNormal(nx, ny)
  {
    if UnitNormal(nx, ny) {
      forall w: Triple
        ensures Restores(R(c, u, v, nx, ny), InvR(c, u, v, nx, ny), w)
      {
        UnitNormalRestores(c, u, v, nx, ny, w);
      }
    } else {
      var w := Triple(0.0, 1.0, 0.0);
      BackFromCharacteristics(c, u, v, nx, ny, w);
      assert !Restores(R(c, u, v, nx, ny), InvR(c, u, v, nx, ny), w);
    }
  }

  // ----- minmod -----

  const M: real := 0.00000001
  const NU: real := 1.5

  function Abs(x: real): real {
    if x < 0.0 then -x else x
  }

  function Min(x: real, y: real): real {
    if x <= y then x else y
  }

  function Max(x: real, y: real): real {
    if x <= y then y else x
  }

  /** The difference to use: small ones pass; otherwise the smaller of both if their signs agree, else none. */
  function Minmod(w: real, d: real, rSq: real): real {
    if Abs(w) <= M * rSq then w
    else if (w < 0.0) == (d < 0.0) then (if w < 0.0 then -1.0 else 1.0) * Min(Abs(w), Abs(NU * d))
    else 0.0
  }

  /** Limiting never enlarges a difference or turns it around, and binds large ones to the neighbours' slope. */
  lemma MinmodLimits(w: real, d: real, rSq: real)
    ensures w >= 0.0 ==> 0.0 <= Minmod(w, d, rSq) <= w
    ensures w <= 0.0 ==> w <= Minmod(w, d, rSq) <= 0.0
    ensures Abs(w) > M * rSq ==> Abs(Minmod(w, d, rSq)) <= NU * Abs(d)
  {
    assert Abs(NU * d) == NU * Abs(d);
  }

  // ----- rescaling to a zero sum -----

  function PositivePart(d: Triple): real {
    Max(0.0, d.x0) + Max(0.0, d.x1) + Max(0.0, d.x2)
  }

  function NegativePart(d: Triple): real {
    Max(0.0, -d.x0) + Max(0.0, -d.x1) + Max(0.0, -d.x2)
  }

  /** min(1, a / b), where a division of something positive by zero gives infinity. */
  function Theta(a: real, b: real): real {
    if b == 0.0 then 1.0 else Min(1.0, a / b)
  }

  function Shrunk(x: real, thetaPositive: real, thetaNegative: real): real {
    thetaPositive * Max(0.0, x) - thetaNegative * Max(0.0, -x)
  }

  function Rescaled(d: Triple): Triple {
    if d.Sum() == 0.0 then d else
      Squeezed(d, Theta(NegativePart(d), PositivePart(d)), Theta(PositivePart(d), NegativePart(d)))
  }

  function Squeezed(d: Triple, tp: real, tn: real): Triple {
    Triple(Shrunk(d.x0, tp, tn), Shrunk(d.x1, tp, tn), Shrunk(d.x2, tp, tn))
  }

  /** y lies between 0 and x. */
  predicate Between(x: real, y: real) {
    (x >= 0.0 ==> 0.0 <= y <= x) && (x <= 0.0 ==> x <= y <= 0.0)
  }

  lemma ThetaBalances(p: real, n: real)
    requires p >= 0.0 && n >= 0.0 && p != n
    ensures 0.0 <= Theta(n, p) <= 1.0 && Theta(n, p) * p == Theta(p, n) * n
  {
    if p > 0.0 {
      Quotient(n, p);
    }
    if n > 0.0 {
      Quotient(p, n);
    }
  }

  lemma Quotient(a: real, b: real)
    requires a >= 0.0 && b > 0.0
    ensures (a / b) * b == a && 0.0 <= a / b && (a <= b <==> a / b <= 1.0)
  {
    var q := a / b;
    assert q * b == a;
    assert (1.0 - q) * b == b - a;
  }

  lemma ShrunkBetween(x: real, tp: real, tn: real)
    requires 0.0 <= tp <= 1.0 && 0.0 <= tn <= 1.0
    ensures Between(x, Shrunk(x, tp, tn))
  {
    if x >= 0.0 {
      assert (1.0 - tp) * x >= 0.0;
    } else {
      assert (1.0 - tn) * -x >= 0.0;
    }
  }

  /** Rescaled differences sum to zero, and none is enlarged or turned around, also when all have the same sign. */
  lemma RescaledBalances(d: Triple)
    ensures Rescaled(d).Sum() == 0.0
    ensures Between(d.x0, Rescaled(d).x0) && Between(d.x1, Rescaled(d).x1) && Between(d.x2, Rescaled(d).x2)
  {
    if d.Sum() != 0.0 {
      var p, n := PositivePart(d), NegativePart(d);
      assert p - n == d.Sum();
      ThetaBalances(p, n);
      ThetaBalances(n, p);
      SqueezedBalances(d, Theta(n, p), Theta(p, n));
    }
  }

  lemma SqueezedBalances(d: Triple, tp: real, tn: real)
    requires 0.0 <= tp <= 1.0 && 0.0 <= tn <= 1.0 && tp * PositivePart(d) == tn * NegativePart(d)
    ensures Squeezed(d, tp, tn).Sum() == 0.0
    ensures Between(d.x0, Squeezed(d, tp, tn).x0) && Between(d.x1, Squeezed(d, tp, tn).x1)
         && Between(d.x2, Squeezed(d, tp, tn).x2)
  {
    ShrunkBetween(d.x0, tp, tn);
    ShrunkBetween(d.x1, tp, tn);
    ShrunkBetween(d.x2, tp, tn);
    ShrunkSum(d, tp, tn);
  }

  lemma ShrunkSum(d: Triple, tp: real, tn: real)
    ensures Shrunk(d.x0, tp, tn) + Shrunk(d.x1, tp, tn) + Shrunk(d.x2, tp, tn)
            == tp * PositivePart(d) - tn * NegativePart(d)
  {
  }

  // ----- projections -----

  /** Vertex values of the linear part of an expansion, and back. */
  function ToLinear(u: Triple): Triple {
    Triple(u.x0 - u.x1 - u.x2, u.x0 - u.x1 + u.x2, u.x0 + 2.0 * u.x1)
  }

  function ToBasis(lin: Triple): Triple {
    Triple((lin.x0 + lin.x1 + lin.x2) / 3.0, (-lin.x0 - lin.x1 + 2.0 * lin.x2) / 6.0, (-lin.x0 + lin.x1) / 2.0)
  }

  lemma ProjectionsInverse(x: Triple)
    ensures ToBasis(ToLinear(x)) == x && ToLinear(ToBasis(x)) == x
  {
  }

  function AtBarycentre(lin: Triple): real {
    lin.Sum() / 3.0
  }

  /** The value at the midpoint of each side, which lies opposite the vertex of its number. */
  function AtMidpoints(lin: Triple): Triple {
    Triple(0.5 * lin.x1 + 0.5 * lin.x2, 0.5 * lin.x0 + 0.5 * lin.x2, 0.5 * lin.x0 + 0.5 * lin.x1)
  }

  /** The rebuilding matrix: -1 on the diagonal, 1 elsewhere. */
  function T(i: nat, j: nat): real {
    if i == j then -1.0 else 1.0
  }

  function Rebuilt(baryctr: real, delta: Triple): Triple {
    Triple(baryctr - delta.x0 + delta.x1 + delta.x2, baryctr + delta.x0 - delta.x1 + delta.x2,
           baryctr + delta.x0 + delta.x1 - delta.x2)
  }

  /** Rebuilding from balanced differences gives vertex values whose mean is the barycentre value. */
  lemma RebuiltKeepsMean(baryctr: real, delta: Triple)
    requires delta.Sum() == 0.0
    ensures ToBasis(Rebuilt(baryctr, delta)).x0 == baryctr
  {
  }

  /** Unlimited midpoint differences are balanced and rebuild the vertex values they came from. */
  lemma DifferencesRebuild(lin: Triple, baryctr: real)
    requires baryctr == AtBarycentre(lin)
    ensures var d := Triple(AtMidpoints(lin).x0 - baryctr, AtMidpoints(lin).x1 - baryctr,
                            AtMidpoints(lin).x2 - baryctr);
            d.Sum() == 0.0 && Rebuilt(baryctr, d) == lin
  {
  }

  function NormSq(x: Triple): real {
    x.Dot(x)
  }

  /** Relative change above 1e-12, with squares; division by a zero norm gives infinity, or no number. */
  predicate Moved(vertices: Triple, lin: Triple) {
    NormSq(vertices.Minus(lin)) > 0.000000000000000000000001 * NormSq(lin)
  }

  // ----- the kernel -----

  /** What the preparation kernels leave for an element; matrices have a row a variable. */
  datatype LimiterInput = LimiterInput(
    lin: Matrix, bary: Triple, mid: Matrix, bathAtBaryctr: real,
    neigh: seq<Triple>, median: seq<(real, real)>, alpha: seq<(real, real)>, rSq: seq<real>)
  {
    predicate Sized() {
      |neigh| == |median| == |alpha| == |rSq| == 3
    }

    function Depth(): real {
      bary.x0 + bathAtBaryctr
    }

    /** What a wet element guarantees: a depth, and a wave speed. */
    predicate Wet(wave: real -> real) {
      Sized() && Depth() > 0.0 && wave(Depth()) > 0.0
    }
  }

  /** Into and out of the characteristic variables at each midpoint. */
  datatype Transforms = Transforms(forward: (nat, Triple) -> Triple, inverse: (nat, Triple) -> Triple)

  /** The transformations at the barycentre state along median b. */
  function InverseAt(s: LimiterInput, wave: real -> real, b: nat): Matrix
    requires b < 3 && s.Wet(wave)
  {
    var h := s.Depth();
    InvR(wave(h), s.bary.x1 / h, s.bary.x2 / h, s.median[b].0, s.median[b].1)
  }

  function ForwardAt(s: LimiterInput, wave: real -> real, b: nat): Matrix
    requires b < 3 && s.Wet(wave)
  {
    var h := s.Depth();
    R(wave(h), s.bary.x1 / h, s.bary.x2 / h, s.median[b].0, s.median[b].1)
  }

  function Characteristic(s: LimiterInput, wave: real -> real): Transforms
    requires s.Wet(wave)
  {
    Transforms((b: nat, w: Triple) => if b < 3 then ForwardAt(s, wave, b).Times(w) else w,
               (b: nat, w: Triple) => if b < 3 then InverseAt(s, wave, b).Times(w) else w)
  }

  /** The differences at one midpoint in characteristic variables: of the midpoint value, and of the neighbours'. */
  function MidpointDifference(s: LimiterInput, t: Transforms, b: nat): Triple
    requires b < 3
  {
    t.inverse(b, s.mid.Column(b)).Minus(t.inverse(b, s.bary))
  }

  function NeighbourDifference(s: LimiterInput, t: Transforms, b: nat): Triple
    requires b < 3 && s.Sized()
  {
    t.inverse(b, s.neigh[b]).Minus(t.inverse(b, s.bary)).Scaled(s.alpha[b].0).Plus(
      t.inverse(b, s.neigh[(b + 1) % 3]).Minus(t.inverse(b, s.bary)).Scaled(s.alpha[b].1))
  }

  function MinmodAll(w: Triple, d: Triple, rSq: real): Triple {
    Triple(Minmod(w.x0, d.x0, rSq), Minmod(w.x1, d.x1, rSq), Minmod(w.x2, d.x2, rSq))
  }

  /** The characteristic differences at midpoint b once limited. */
  function Limited(s: LimiterInput, t: Transforms, b: nat): Triple
    requires b < 3 && s.Sized()
  {
    MinmodAll(MidpointDifference(s, t, b), NeighbourDifference(s, t, b), s.rSq[b])
  }

  /** The limited difference at midpoint b. */
  function DeltaColumn(s: LimiterInput, t: Transforms, b: nat): Triple
    requires b < 3 && s.Sized()
  {
    t.forward(b, Limited(s, t, b))
  }

  function DeltaRow(s: LimiterInput, t: Transforms, v: nat): Triple
    requires v < 3 && s.Sized()
  {
    Triple(DeltaColumn(s, t, 0).At(v), DeltaColumn(s, t, 1).At(v), DeltaColumn(s, t, 2).At(v))
  }

  function VertexRow(s: LimiterInput, t: Transforms, v: nat): Triple
    requires v < 3 && s.Sized()
  {
    Rebuilt(s.bary.At(v), Rescaled(DeltaRow(s, t, v)))
  }

  /** Preparation of the element itself: its linear part, and that at the barycentre and the midpoints. */
  ghost predicate Prepared(s: LimiterInput, v: nat, u: Triple)
    requires v < 3
  {
    && s.lin.Row(v) == ToLinear(u) && s.bary.At(v) == AtBarycentre(s.lin.Row(v))
        && s.mid.Row(v) == AtMidpoints(s.lin.Row(v))
  }

  /** Every rebuilt row keeps the cell mean. */
  lemma VertexRowKeepsMean(s: LimiterInput, t: Transforms, v: nat, u: Triple)
    requires v < 3 && s.Sized() && Prepared(s, v, u)
    ensures ToBasis(VertexRow(s, t, v)).x0 == u.x0
  {
    RescaledBalances(DeltaRow(s, t, v));
    RebuiltKeepsMean(s.bary.At(v), Rescaled(DeltaRow(s, t, v)));
  }

  /** The transformations at midpoint b bring a difference back. */
  ghost predicate BringsBack(t: Transforms, b: nat, x: Triple, y: Triple) {
    t.forward(b, t.inverse(b, x).Minus(t.inverse(b, y))) == x.Minus(y)
  }

  lemma TimesMinus(a: Matrix, x: Triple, y: Triple)
    ensures a.Times(x).Minus(a.Times(y)) == a.Times(x.Minus(y))
  {
    DotMinus(a.r0, x, y);
    DotMinus(a.r1, x, y);
    DotMinus(a.r2, x, y);
  }

  lemma DotMinus(r: Triple, x: Triple, y: Triple)
    ensures r.Dot(x) - r.Dot(y) == r.Dot(x.Minus(y))
  {
  }

  /** The characteristic transformations do so along every median of unit length. */
  lemma CharacteristicBringsBack(s: LimiterInput, wave: real -> real, b: nat, x: Triple, y: Triple)
    requires b < 3 && s.Wet(wave) && UnitNormal(s.median[b].0, s.median[b].1)
    ensures BringsBack(Characteristic(s, wave), b, x, y)
  {
    var h := s.Depth();
    UnitNormalRestores(wave(h), s.bary.x1 / h, s.bary.x2 / h, s.median[b].0, s.median[b].1, x.Minus(y));
    TimesMinus(InverseAt(s, wave, b), x, y);
  }

  /** Nothing is limited: the medians have unit length, and minmod passes every midpoint difference through. */
  ghost predicate Unlimited(s: LimiterInput, wave: real -> real)
    requires s.Wet(wave)
  {
    var t := Characteristic(s, wave);
    forall b: nat | b < 3 ::
      UnitNormal(s.median[b].0, s.median[b].1) && Limited(s, t, b) == MidpointDifference(s, t, b)
  }

  /** Then the transformations bring every midpoint difference back. */
  lemma UnlimitedDelta(s: LimiterInput, wave: real -> real, b: nat)
    requires b < 3 && s.Wet(wave) && Unlimited(s, wave)
    ensures DeltaColumn(s, Characteristic(s, wave), b) == s.mid.Column(b).Minus(s.bary)
  {
    CharacteristicBringsBack(s, wave, b, s.mid.Column(b), s.bary);
  }

  /** So the vertex values are the ones the limiter started from, and no row is written back. */
  lemma UnlimitedRowUnchanged(s: LimiterInput, wave: real -> real, v: nat, u: Triple)
    requires v < 3 && s.Wet(wave) && Prepared(s, v, u) && Unlimited(s, wave)
    ensures VertexRow(s, Characteristic(s, wave), v) == s.lin.Row(v)
    ensures !Moved(VertexRow(s, Characteristic(s, wave), v), s.lin.Row(v))
  {
    forall b: nat | b < 3
      ensures DeltaColumn(s, Characteristic(s, wave), b) == s.mid.Column(b).Minus(s.bary)
    {
      UnlimitedDelta(s, wave, b);
    }
    RebuiltFromMidpoints(s, v, u, DeltaRow(s, Characteristic(s, wave), v));
    SquareNotNegative(s.lin.Row(v));
  }

  lemma RebuiltFromMidpoints(s: LimiterInput, v: nat, u: Triple, d: Triple)
    requires v < 3 && Prepared(s, v, u)
    requires d == Triple(s.mid.Column(0).Minus(s.bary).At(v), s.mid.Column(1).Minus(s.bary).At(v),
                         s.mid.Column(2).Minus(s.bary).At(v))
    ensures Rebuilt(s.bary.At(v), Rescaled(d)) == s.lin.Row(v)
  {
    var mid := s.mid.Row(v);
    assert d == Triple(mid.x0 - s.bary.At(v), mid.x1 - s.bary.At(v), mid.x2 - s.bary.At(v));
    DifferencesRebuild(s.lin.Row(v), s.bary.At(v));
  }

  lemma SquareNotNegative(x: Triple)
    ensures NormSq(x) >= 0.0 && NormSq(x.Minus(x)) == 0.0
  {
    assert x.x0 * x.x0 >= 0.0 && x.x1 * x.x1 >= 0.0 && x.x2 * x.x2 >= 0.0;
  }
}
