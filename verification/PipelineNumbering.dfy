/**
 From the mesh to the global numbering: the cut edges, slots and rank boundaries that the preprocessor builds are
 coupled the way the exchange of first indices needs, so the numbering is consistent across every cut face.
 */
module PipelineNumbering {
  import opened Sequences
  import opened Sides
  import opened DistributedInterfaces
  import opened MirroredReading
  import opened BufferOffsets
  import opened DistributedDerivatives
  import opened FaceFates
  import R = RawBoundaries
  import Dofs = DofNumbering
  import opened IndexExchange
  import opened Pipeline

  type Numbered = Dofs.Machine

  // ----- which numbered units belong to the built ones -----

  ghost function RankOf(c: Machine, i: nat): nat
    requires c.Valid() && i < |c.codes|
  {
    c.codes[i] % c.w.numLoc
  }

  ghost function UnitOf(c: Machine, i: nat): nat
    requires c.Valid() && i < |c.codes|
  {
    c.codes[i] / c.w.numLoc
  }

  /** The exchanger of an edge names its rank boundary's ends and the one-entry slot its face was given. */
  ghost predicate ExchangesFor(c: Machine, i: nat, x: Dofs.Exchanger, cut: R.CutBoundary)
    requires c.Valid() && i < |c.codes|
  {
    && x.link < |c.w.Read(c.codes[i])| && |cut.offsets| > DC_GLOBAL_DOF_INDX
    && var b := c.w.Read(c.codes[i])[x.link];
       && x.localityIn == b.localityIn && x.submeshIn == b.submeshIn
       && x.localityEx == b.localityEx == cut.locality && x.submeshEx == b.submeshEx == cut.submesh
       && x.offset == cut.offsets[DC_GLOBAL_DOF_INDX]
  }

  /** Unit i's skeleton holds one edge a cut face, in the order place, and its buffers have the sizes handed out. */
  ghost predicate SkeletonOf(c: Machine, i: nat, x: Dofs.Unit, place: seq<nat>, ndof: nat)
    requires c.Valid() && i < |c.codes|
  {
    && |place| == |x.distributeds| && Distinct(place)
    && (forall n | 0 <= n < |c.units[i].cuts| :: n in place)
    && (forall d | 0 <= d < |place| :: EdgeFor(c, i, x.distributeds[d], place[d], ndof))
    && |x.send| == |x.recv| == |c.w.Read(c.codes[i])| == |c.units[i].sizes|
    && forall j | 0 <= j < |x.send| :: BufferSized(x, c.units[i].sizes[j], j)
  }

  ghost predicate EdgeFor(c: Machine, i: nat, e: Dofs.DistributedEdge, n: nat, ndof: nat)
    requires c.Valid() && i < |c.codes|
  {
    e.ndof == ndof && n < |c.units[i].cuts| && ExchangesFor(c, i, e.exchanger, c.units[i].cuts[n])
  }

  ghost predicate BufferSized(x: Dofs.Unit, sizes: seq<nat>, j: nat)
    requires j < |x.send| && j < |x.recv|
  {
    |sizes| > DC_GLOBAL_DOF_INDX && |x.send[j]| == |x.recv[j]| == sizes[DC_GLOBAL_DOF_INDX]
  }

  /** The machine's ranks hold exactly the built units, unit number u of rank r being the one with that code. */
  ghost predicate Arranged(c: Machine, m: Numbered, places: seq<seq<nat>>, ndof: nat)
    requires c.Valid()
  {
    && ndof > 0 && |places| == |c.codes|
    && (forall i | 0 <= i < |c.codes| :: UnitArranged(c, m, places[i], ndof, i))
    && (forall r, u | 0 <= r < |m| && 0 <= u < |m[r]| :: UnitBuilt(c, r, u))
  }

  ghost predicate UnitArranged(c: Machine, m: Numbered, place: seq<nat>, ndof: nat, i: nat)
    requires c.Valid() && i < |c.codes|
  {
    && RankOf(c, i) < |m| && UnitOf(c, i) < |m[RankOf(c, i)]|
    && SkeletonOf(c, i, m[RankOf(c, i)][UnitOf(c, i)], place, ndof)
  }

  ghost predicate UnitBuilt(c: Machine, r: nat, u: nat)
    requires c.Valid()
  {
    exists i :: 0 <= i < |c.codes| && RankOf(c, i) == r && UnitOf(c, i) == u
  }

  // ----- channels -----

  ghost predicate IsRankBoundary(c: Machine, i: nat, j: nat)
    requires c.Valid()
  {
    i < |c.codes| && j < |c.w.Read(c.codes[i])|
  }

  ghost function PortAt(c: Machine, i: nat, j: nat): Port
    requires c.Valid() && IsRankBoundary(c, i, j)
  {
    Port(RankOf(c, i), UnitOf(c, i), j)
  }

  /** Rank boundaries j of unit i and k of unit v lead to each other. */
  ghost predicate Facing(c: Machine, i: nat, j: nat, v: nat, k: nat)
    requires c.Valid()
  {
    && IsRankBoundary(c, i, j) && IsRankBoundary(c, v, k)
    && c.Far(c.w.Read(c.codes[i])[j]) == v && c.Far(c.w.Read(c.codes[v])[k]) == i
  }

  /** A channel joins every rank boundary to the one that leads back. */
  ghost predicate Wired(c: Machine, w: Wiring)
    requires c.Valid()
  {
    && (forall p | p in w :: exists i, j, v, k :: FacingPorts(c, i, j, v, k, p, w[p]))
    && (forall i, j, v, k | Facing(c, i, j, v, k) :: PortAt(c, i, j) in w && w[PortAt(c, i, j)] == PortAt(c, v, k))
  }

  ghost predicate FacingPorts(c: Machine, i: nat, j: nat, v: nat, k: nat, p: Port, q: Port)
    requires c.Valid()
  {
    Facing(c, i, j, v, k) && p == PortAt(c, i, j) && q == PortAt(c, v, k)
  }

  // ----- what the pipeline says about one cut face -----

  /** Cut face x of unit i is face k of its rank boundary j. */
  ghost predicate CutFrom(c: Machine, i: nat, j: nat, k: nat, x: R.CutBoundary)
    requires c.Valid() && IsRankBoundary(c, i, j)
  {
    var b := c.w.Read(c.codes[i])[j];
    && Rectangular(b) && k < |b.p| && x.side == FaceIn(b, k) && x.locality == b.localityEx && x.submesh == b.submeshEx
    && x.offsets == OffsetsAt(R.GaussPoints(b, c.numGp), k)
  }

  lemma CutFromBuilt(c: Machine, i: nat, j: nat, k: nat)
    requires c.Valid() && IsRankBoundary(c, i, j)
    requires R.AllFound(c.units[i].reg, c.w.Read(c.codes[i])[j]) && k < |c.w.Read(c.codes[i])[j].p|
    ensures CutFrom(c, i, j, k, R.CutAt(c.units[i].reg, c.w.Read(c.codes[i])[j], c.numGp, k))
  {
    assert c.Initialized(i);
    RegistersAll(c.w, c.codes[i], c.units[i].own, c.units[i].reg);
    ReadFaceFound(c.w, c.codes[i], c.units[i].reg, j, k);
  }

  lemma CutOrigin(c: Machine, i: nat, n: nat) returns (j: nat, k: nat)
    requires c.Valid() && i < |c.codes| && n < |c.units[i].cuts|
    ensures IsRankBoundary(c, i, j) && CutFrom(c, i, j, k, c.units[i].cuts[n])
  {
    assert c.Initialized(i);
    var bs, x := c.w.Read(c.codes[i]), c.units[i];
    j, k := CutPosition(x.reg, bs, c.numGp, |bs|, n);
    CutFromBuilt(c, i, j, k);
  }

  lemma CutOf(c: Machine, i: nat, j: nat, k: nat) returns (n: nat)
    requires c.Valid() && IsRankBoundary(c, i, j) && k < |c.w.Read(c.codes[i])[j].p|
    ensures n < |c.units[i].cuts| && CutFrom(c, i, j, k, c.units[i].cuts[n])
  {
    assert c.Initialized(i);
    var bs, x := c.w.Read(c.codes[i]), c.units[i];
    n := CutIndex(x.reg, bs, c.numGp, |bs|, j, k);
    CutFromBuilt(c, i, j, k);
  }

  /** A rank boundary carries the ranks and numbers of the units at its ends. */
  lemma EndsOf(c: Machine, i: nat, j: nat)
    requires c.Valid() && IsRankBoundary(c, i, j)
    ensures var b := c.w.Read(c.codes[i])[j];
            && c.Far(b) < |c.codes| && c.Far(b) != i
            && b.localityIn == RankOf(c, i) && b.submeshIn == UnitOf(c, i)
            && b.localityEx == RankOf(c, c.Far(b)) && b.submeshEx == UnitOf(c, c.Far(b))
  {
    var w, u := c.w, c.codes[i];
    ReadBasics(c, i, j);
    ReadFollowsKeys(w.shared, w.keys, w.numLoc, u);
    var key := KeysOf(w.keys, u, |w.keys|)[j];
    CodeOfView(w.numLoc, key, w.shared[key], u);
  }

  /** Two rank boundaries of a unit towards the same place are one. */
  lemma OneBoundaryEach(c: Machine, i: nat, j: nat, j': nat)
    requires c.Valid() && IsRankBoundary(c, i, j) && IsRankBoundary(c, i, j')
    requires var b, b' := c.w.Read(c.codes[i])[j], c.w.Read(c.codes[i])[j'];
             b.localityEx == b'.localityEx && b.submeshEx == b'.submeshEx
    ensures j == j'
  {
    var far := Opposite(c, i, j);
  }

  /** An edge's link is the rank boundary its cut face came from. */
  lemma LinkIsOrigin(c: Machine, i: nat, x: Dofs.Exchanger, cut: R.CutBoundary, j: nat, k: nat)
    requires c.Valid() && IsRankBoundary(c, i, j) && ExchangesFor(c, i, x, cut) && CutFrom(c, i, j, k, cut)
    ensures x.link == j && x.offset == OffsetAt(R.GaussPoints(c.w.Read(c.codes[i])[j], c.numGp), k, DC_GLOBAL_DOF_INDX)
  {
    OneBoundaryEach(c, i, j, x.link);
  }

  // ----- slots -----

  /** An exchanger uses slot k of rank boundary j. */
  ghost predicate Uses(c: Machine, i: nat, x: Dofs.Exchanger, j: nat, k: nat)
    requires c.Valid() && IsRankBoundary(c, i, j)
  {
    var ngps := R.GaussPoints(c.w.Read(c.codes[i])[j], c.numGp);
    x.link == j && k < |ngps| && x.offset == OffsetAt(ngps, k, DC_GLOBAL_DOF_INDX)
  }

  lemma EdgeOrigin(c: Machine, i: nat, e: Dofs.DistributedEdge, n: nat, ndof: nat) returns (j: nat, k: nat)
    requires c.Valid() && i < |c.codes| && EdgeFor(c, i, e, n, ndof)
    ensures n < |c.units[i].cuts| && IsRankBoundary(c, i, j) && CutFrom(c, i, j, k, c.units[i].cuts[n])
    ensures Uses(c, i, e.exchanger, j, k)
  {
    j, k := CutOrigin(c, i, n);
    LinkIsOrigin(c, i, e.exchanger, c.units[i].cuts[n], j, k);
  }

  /** Every slot lies inside the buffer as finally sized. */
  lemma SlotInside(c: Machine, i: nat, x: Dofs.Exchanger, j: nat, k: nat)
    requires c.Valid() && IsRankBoundary(c, i, j) && Uses(c, i, x, j, k)
    ensures j < |c.units[i].sizes| && |c.units[i].sizes[j]| > DC_GLOBAL_DOF_INDX
    ensures x.offset < c.units[i].sizes[j][DC_GLOBAL_DOF_INDX]
  {
    BoundarySized(c, i, j);
    var b := c.w.Read(c.codes[i])[j];
    IndexSlot(R.GaussPoints(b, c.numGp), k);
    IndexSlot(R.GaussPoints(b, c.numGp), |b.p|);
  }

  lemma BoundarySized(c: Machine, i: nat, j: nat)
    requires c.Valid() && IsRankBoundary(c, i, j)
    ensures j < |c.units[i].sizes| && R.Sized(c.w.Read(c.codes[i])[j], c.numGp, c.units[i].sizes[j])
  {
    assert c.Initialized(i);
  }

  /** Different faces have different slots. */
  lemma SlotsDiffer(c: Machine, i: nat, x: Dofs.Exchanger, j: nat, k: nat, x': Dofs.Exchanger, j': nat, k': nat)
    requires c.Valid() && IsRankBoundary(c, i, j) && IsRankBoundary(c, i, j') && Uses(c, i, x, j, k)
             && Uses(c, i, x', j', k')
    requires j != j' || k != k'
    ensures x.link != x'.link || x.offset != x'.offset
  {
    if j == j' {
      var ngps := R.GaussPoints(c.w.Read(c.codes[i])[j], c.numGp);
      IndexSlot(ngps, k);
      IndexSlot(ngps, k');
    }
  }

  /** Every edge's slot exists in both buffers. */
  lemma EdgeHasSlot(c: Machine, i: nat, x: Dofs.Unit, place: seq<nat>, ndof: nat, d: nat)
    requires c.Valid() && i < |c.codes| && SkeletonOf(c, i, x, place, ndof) && d < |place|
    ensures var e := x.distributeds[d].exchanger;
            e.link < |x.send| && e.offset < |x.send[e.link]| == |x.recv[e.link]|
  {
    var j, k := EdgeOrigin(c, i, x.distributeds[d], place[d], ndof);
    SlotInside(c, i, x.distributeds[d].exchanger, j, k);
    assert BufferSized(x, c.units[i].sizes[j], j);
  }

  lemma CutSidesDiffer(c: Machine, i: nat, n: nat, n': nat)
    requires c.Valid() && i < |c.codes| && n < |c.units[i].cuts| && n' < |c.units[i].cuts| && n != n'
    ensures c.units[i].cuts[n].side != c.units[i].cuts[n'].side
  {
    PartSidesDiffer(c, i);
    DBoundSidesDiffer(c.PartOf(i), if n < n' then n else n', if n < n' then n' else n);
  }

  lemma PartSidesDiffer(c: Machine, i: nat)
    requires c.Valid() && i < |c.codes|
    ensures forall a, b | 0 <= a < b < |SidesOf(c.PartOf(i))| :: SidesOf(c.PartOf(i))[a] != SidesOf(c.PartOf(i))[b]
  {
    var x := c.units[i];
    assert c.Initialized(i);
    EveryFaceHasOneFate(c.w, c.codes[i], x.own, x.reg, c.numGp, c.PartOf(i), x.cuts, x.sizes);
  }

  /** Different edges of a unit have different slots. */
  lemma EdgeSlotsDiffer(c: Machine, i: nat, x: Dofs.Unit, place: seq<nat>, ndof: nat, d: nat, d': nat)
    requires c.Valid() && i < |c.codes| && SkeletonOf(c, i, x, place, ndof) && d < d' < |place|
    ensures var e, e' := x.distributeds[d].exchanger, x.distributeds[d'].exchanger;
            e.link != e'.link || e.offset != e'.offset
  {
    var j, k := EdgeOrigin(c, i, x.distributeds[d], place[d], ndof);
    var j', k' := EdgeOrigin(c, i, x.distributeds[d'], place[d'], ndof);
    CutSidesDiffer(c, i, place[d], place[d']);
    SlotsDiffer(c, i, x.distributeds[d].exchanger, j, k, x.distributeds[d'].exchanger, j', k');
  }

  lemma UnitIsReady(c: Machine, i: nat, x: Dofs.Unit, place: seq<nat>, ndof: nat)
    requires c.Valid() && i < |c.codes| && SkeletonOf(c, i, x, place, ndof) && ndof > 0
    ensures x.SlotsExist() && x.SlotsDistinct() && x.HasDofs()
  {
    forall d | 0 <= d < |x.distributeds|
      ensures var e := x.distributeds[d].exchanger;
              e.link < |x.send| && e.offset < |x.send[e.link]| && e.offset < |x.recv[e.link]|
    {
      EdgeHasSlot(c, i, x, place, ndof, d);
    }
    forall d, d' | 0 <= d < d' < |x.distributeds|
      ensures x.distributeds[d].exchanger.link != x.distributeds[d'].exchanger.link
              || x.distributeds[d].exchanger.offset != x.distributeds[d'].exchanger.offset
    {
      EdgeSlotsDiffer(c, i, x, place, ndof, d, d');
    }
  }

  lemma AllReady(c: Machine, m: Numbered, places: seq<seq<nat>>, ndof: nat)
    requires c.Valid() && Arranged(c, m, places, ndof)
    ensures Dofs.Ready(m)
  {
    forall r, u | 0 <= r < |m| && 0 <= u < |m[r]|
      ensures m[r][u].SlotsExist() && m[r][u].SlotsDistinct() && m[r][u].HasDofs()
    {
      assert UnitBuilt(c, r, u);
      var i :| 0 <= i < |c.codes| && RankOf(c, i) == r && UnitOf(c, i) == u;
      assert UnitArranged(c, m, places[i], ndof, i);
      UnitIsReady(c, i, m[r][u], places[i], ndof);
    }
  }

  // ----- the other side of an edge -----

  ghost function RefAt(c: Machine, i: nat, d: nat): EdgeRef
    requires c.Valid() && i < |c.codes|
  {
    EdgeRef(RankOf(c, i), UnitOf(c, i), d)
  }

  /** The unit beyond holds the other side of a cut face, in the mirrored rank boundary at the same place. */
  lemma FarCut(c: Machine, i: nat, j: nat, k: nat, n: nat) returns (v: nat, j': nat, n': nat)
    requires c.Valid() && IsRankBoundary(c, i, j) && n < |c.units[i].cuts| && CutFrom(c, i, j, k, c.units[i].cuts[n])
    ensures Facing(c, i, j, v, j') && Facing(c, v, j', i, j)
    ensures n' < |c.units[v].cuts| && CutFrom(c, v, j', k, c.units[v].cuts[n'])
    ensures R.GaussPoints(c.w.Read(c.codes[v])[j'], c.numGp) == R.GaussPoints(c.w.Read(c.codes[i])[j], c.numGp)
    ensures c.units[i].cuts[n].side in c.MeshOf().nb
            && c.MeshOf().nb[c.units[i].cuts[n].side] == c.units[v].cuts[n'].side
  {
    var w, s := c.w, c.units[i].cuts[n].side;
    var b := w.Read(c.codes[i])[j];
    ReadFacesAreCut(w.neighbor, w.code, w.order, w.p, w.shared, w.keys, w.numLoc, c.codes[i], j, k);
    FarTwice(w.neighbor, s);
    v := c.Far(b);
    j' := Opposite(c, i, j);
    n' := CutOf(c, v, j', k);
    assert FaceIn(w.Read(c.codes[v])[j'], k) == FaceEx(b, k);
  }

  /** Two slots at the same place of two facing rank boundaries. */
  ghost predicate SlotsMeet(c: Machine, i: nat, j: nat, x: Dofs.Exchanger, v: nat, j': nat, x': Dofs.Exchanger, k: nat)
    requires c.Valid()
  {
    && Facing(c, i, j, v, j') && Facing(c, v, j', i, j) && Uses(c, i, x, j, k) && Uses(c, v, x', j', k)
    && R.GaussPoints(c.w.Read(c.codes[v])[j'], c.numGp) == R.GaussPoints(c.w.Read(c.codes[i])[j], c.numGp)
  }

  /** What two edges on the two sides of one face have in common. */
  lemma ExchangersMirror(c: Machine, i: nat, j: nat, e: Dofs.DistributedEdge, n: nat,
                         v: nat, j': nat, e': Dofs.DistributedEdge, n': nat, k: nat, ndof: nat)
    requires c.Valid() && SlotsMeet(c, i, j, e.exchanger, v, j', e'.exchanger, k)
    requires EdgeFor(c, i, e, n, ndof) && EdgeFor(c, v, e', n', ndof)
    ensures var x, y := e.exchanger, e'.exchanger;
            && x.localityIn == y.localityEx == RankOf(c, i) && x.submeshIn == y.submeshEx == UnitOf(c, i)
            && x.localityEx == y.localityIn == RankOf(c, v) && x.submeshEx == y.submeshIn == UnitOf(c, v)
            && x.offset == y.offset && x.link == j && y.link == j'
    ensures RankOf(c, i) != RankOf(c, v) || UnitOf(c, i) != UnitOf(c, v)
  {
    EndsOf(c, i, j);
    EndsOf(c, v, j');
    assert c.codes[i] != c.codes[v];
    PlaceGivesCode(c.w.numLoc, c.codes[i], c.codes[v]);
  }

  lemma FacingEdgesMate(c: Machine, m: Numbered, places: seq<seq<nat>>, ndof: nat, w: Wiring,
                        i: nat, j: nat, d: nat, v: nat, j': nat, d': nat, k: nat)
    requires c.Valid() && Arranged(c, m, places, ndof) && Wired(c, w)
    requires i < |c.codes| && v < |c.codes| && d < |places[i]| && d' < |places[v]|
    requires UnitArranged(c, m, places[i], ndof, i) && UnitArranged(c, m, places[v], ndof, v)
    requires SlotsMeet(c, i, j, Edge(m, RefAt(c, i, d)).exchanger, v, j', Edge(m, RefAt(c, v, d')).exchanger, k)
    ensures Mates(m, w, RefAt(c, i, d), RefAt(c, v, d'))
  {
    ExchangersMirror(c, i, j, Edge(m, RefAt(c, i, d)), places[i][d], v, j', Edge(m, RefAt(c, v, d')), places[v][d'],
                     k, ndof);
  }

  /** Edge d of unit i belongs to the cut face that is face k of rank boundary j. */
  ghost predicate EdgeAt(c: Machine, m: Numbered, places: seq<seq<nat>>, ndof: nat, i: nat, d: nat, j: nat, k: nat)
    requires c.Valid()
  {
    && i < |c.codes| && i < |places| && d < |places[i]| && UnitArranged(c, m, places[i], ndof, i)
    && places[i][d] < |c.units[i].cuts|
    && IsRankBoundary(c, i, j) && CutFrom(c, i, j, k, c.units[i].cuts[places[i][d]])
    && Uses(c, i, Edge(m, RefAt(c, i, d)).exchanger, j, k)
  }

  lemma NearEdge(c: Machine, m: Numbered, places: seq<seq<nat>>, ndof: nat, i: nat, d: nat) returns (j: nat, k: nat)
    requires c.Valid() && i < |c.codes| && i < |places| && d < |places[i]| && UnitArranged(c, m, places[i], ndof, i)
    ensures EdgeAt(c, m, places, ndof, i, d, j, k)
  {
    j, k := EdgeOrigin(c, i, Edge(m, RefAt(c, i, d)), places[i][d], ndof);
  }

  lemma FarEdge(c: Machine, m: Numbered, places: seq<seq<nat>>, ndof: nat, v: nat, n: nat, j: nat, k: nat)
    returns (d: nat)
    requires c.Valid() && v < |c.codes| && v < |places| && UnitArranged(c, m, places[v], ndof, v)
    requires IsRankBoundary(c, v, j) && n < |c.units[v].cuts| && CutFrom(c, v, j, k, c.units[v].cuts[n])
    ensures EdgeAt(c, m, places, ndof, v, d, j, k) && places[v][d] == n
  {
    assert n in places[v];
    d :| 0 <= d < |places[v]| && places[v][d] == n;
    LinkIsOrigin(c, v, Edge(m, RefAt(c, v, d)).exchanger, c.units[v].cuts[n], j, k);
  }

  /** The two sides of a cut face are mates: its edge in this unit, and the edge of the far side in the unit beyond. */
  lemma CutFaceHasMate(c: Machine, m: Numbered, places: seq<seq<nat>>, ndof: nat, w: Wiring, i: nat, d: nat)
    returns (v: nat, d': nat)
    requires c.Valid() && Arranged(c, m, places, ndof) && Wired(c, w) && i < |c.codes| && d < |places[i]|
    ensures v < |c.codes| && d' < |places[v]| && Mates(m, w, RefAt(c, i, d), RefAt(c, v, d'))
    ensures places[i][d] < |c.units[i].cuts| && places[v][d'] < |c.units[v].cuts|
    ensures var s, s' := c.units[i].cuts[places[i][d]].side, c.units[v].cuts[places[v][d']].side;
            s in c.MeshOf().nb && c.MeshOf().nb[s] == s'
  {
    assert UnitArranged(c, m, places[i], ndof, i);
    var j, k := NearEdge(c, m, places, ndof, i, d);
    var j', n';
    v, j', n' := FarCut(c, i, j, k, places[i][d]);
    assert UnitArranged(c, m, places[v], ndof, v);
    d' := FarEdge(c, m, places, ndof, v, n', j', k);
    FacingEdgesMate(c, m, places, ndof, w, i, j, d, v, j', d', k);
  }

  // ----- main results -----

  lemma EdgeBuilt(c: Machine, m: Numbered, places: seq<seq<nat>>, ndof: nat, e: EdgeRef) returns (i: nat)
    requires c.Valid() && Arranged(c, m, places, ndof) && Exists(m, e)
    ensures i < |c.codes| && e == RefAt(c, i, e.edge) && e.edge < |places[i]|
  {
    assert UnitBuilt(c, e.rank, e.unit);
    i :| 0 <= i < |c.codes| && RankOf(c, i) == e.rank && UnitOf(c, i) == e.unit;
    assert UnitArranged(c, m, places[i], ndof, i);
  }

  /** The two buffers of a channel were sized by mirrored metadata. */
  lemma ChannelFits(c: Machine, m: Numbered, places: seq<seq<nat>>, ndof: nat, i: nat, j: nat, v: nat, k: nat)
    requires c.Valid() && Arranged(c, m, places, ndof) && Facing(c, i, j, v, k)
    ensures UnitArranged(c, m, places[i], ndof, i) && UnitArranged(c, m, places[v], ndof, v)
    ensures |m[RankOf(c, v)][UnitOf(c, v)].send[k]| == |m[RankOf(c, i)][UnitOf(c, i)].recv[j]|
  {
    assert UnitArranged(c, m, places[i], ndof, i) && UnitArranged(c, m, places[v], ndof, v);
    assert BufferSized(m[RankOf(c, i)][UnitOf(c, i)], c.units[i].sizes[j], j);
    assert BufferSized(m[RankOf(c, v)][UnitOf(c, v)], c.units[v].sizes[k], k);
    MirroredSizes(c, i, j, v, k);
  }

  lemma MirroredSizes(c: Machine, i: nat, j: nat, v: nat, k: nat)
    requires c.Valid() && Facing(c, i, j, v, k)
    ensures j < |c.units[i].sizes| && k < |c.units[v].sizes| && c.units[i].sizes[j] == c.units[v].sizes[k]
  {
    assert c.Initialized(i) && c.Initialized(v);
    var b, b' := c.w.Read(c.codes[i])[j], c.w.Read(c.codes[v])[k];
    var k' := Opposite(c, i, j);
    var j' := Opposite(c, v, k);
    assert k' == k;
    assert R.GaussPoints(b, c.numGp) == R.GaussPoints(b', c.numGp);
    assert R.Sized(b, c.numGp, c.units[i].sizes[j]) && R.Sized(b', c.numGp, c.units[v].sizes[k]);
  }

  /** For every mesh and every partition, what the preprocessor builds is coupled as the index exchange needs. */
  lemma PipelineCouplesNumbering(c: Machine, m: Numbered, places: seq<seq<nat>>, ndof: nat, w: Wiring)
    requires c.Valid() && Arranged(c, m, places, ndof) && Wired(c, w)
    ensures Coupled(m, w)
  {
    AllReady(c, m, places, ndof);
    forall p | p in w
      ensures w[p].rank < |m| && w[p].unit < |m[w[p].rank]| && w[p].link < |m[w[p].rank][w[p].unit].send|
      ensures p.rank < |m| && p.unit < |m[p.rank]| && p.link < |m[p.rank][p.unit].recv|
      ensures |m[w[p].rank][w[p].unit].send[w[p].link]| == |m[p.rank][p.unit].recv[p.link]|
    {
      var i, j, v, k :| FacingPorts(c, i, j, v, k, p, w[p]);
      ChannelFits(c, m, places, ndof, i, j, v, k);
    }
    forall e | Exists(m, e)
      ensures HasMate(m, w, e)
    {
      var i := EdgeBuilt(c, m, places, ndof, e);
      var v, d := CutFaceHasMate(c, m, places, ndof, w, i, e.edge);
    }
  }

  /**
   End to end: on the two sides of every cut face the numbering ends with one index vector, numbered by exactly one of
   them, the one whose trace basis runs counter-clockwise, and no other cut face shares an index with it.
   */
  lemma CutFacesAreNumberedOnce(c: Machine, m: Numbered, places: seq<seq<nat>>, ndof: nat, w: Wiring, i: nat, d: nat)
    returns (v: nat, d': nat)
    requires c.Valid() && Arranged(c, m, places, ndof) && Wired(c, w) && i < |c.codes| && d < |places[i]|
    ensures v < |c.codes| && d' < |places[v]| && places[i][d] < |c.units[i].cuts| && places[v][d'] < |c.units[v].cuts|
    ensures var s, s' := c.units[i].cuts[places[i][d]].side, c.units[v].cuts[places[v][d']].side;
            s in c.MeshOf().nb && c.MeshOf().nb[s] == s'
    ensures Coupled(m, w) && Exists(m, RefAt(c, i, d)) && Exists(m, RefAt(c, v, d'))
    ensures FinalEdge(m, w, RefAt(c, i, d)).indx == FinalEdge(m, w, RefAt(c, v, d')).indx
    ensures |FinalEdge(m, w, RefAt(c, i, d)).indx| == Dofs.Width(ndof)
    ensures Edge(m, RefAt(c, i, d)).exchanger.Owner() != Edge(m, RefAt(c, v, d')).exchanger.Owner()
    ensures var t, t' := Dofs.TurnOf(Edge(m, RefAt(c, i, d)).exchanger),
            Dofs.TurnOf(Edge(m, RefAt(c, v, d')).exchanger);
            if Edge(m, RefAt(c, i, d)).exchanger.Owner() then t.CounterClockwise? && t'.Clockwise?
            else t.Clockwise? && t'.CounterClockwise?
    ensures forall e, k | Exists(m, e) && k in FinalEdge(m, w, e).indx && k in FinalEdge(m, w, RefAt(c, i, d)).indx ::
              e == RefAt(c, i, d) || Mates(m, w, RefAt(c, i, d), e)
  {
    PipelineCouplesNumbering(c, m, places, ndof, w);
    v, d' := CutFaceHasMate(c, m, places, ndof, w, i, d);
    CutEdgeAgrees(m, w, RefAt(c, i, d), RefAt(c, v, d'));
    CutEdgeTurns(m, w, RefAt(c, i, d), RefAt(c, v, d'));
    assert UnitArranged(c, m, places[i], ndof, i);
    forall e, k | Exists(m, e) && k in FinalEdge(m, w, e).indx && k in FinalEdge(m, w, RefAt(c, i, d)).indx
      ensures e == RefAt(c, i, d) || Mates(m, w, RefAt(c, i, d), e)
    {
      SharedIndexMeansSameEdge(m, w, RefAt(c, i, d), e, k);
    }
  }
}
