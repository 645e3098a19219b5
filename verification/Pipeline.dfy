/**
 From the mesh to the exchange: the objects, slots and neighbours that the preprocessor builds for the units of a
 partitioned mesh satisfy everything the distributed derivative computation relies on.
 */
module Pipeline {
  import opened Sequences
  import opened Sides
  import opened Partitioning
  import opened DistributedInterfaces
  import opened MirroredReading
  import opened BufferOffsets
  import R = RawBoundaries
  import opened FaceFates
  import opened Derivatives
  import opened HaloProtocol
  import opened DistributedDerivatives

  /** What initialization left in one unit. */
  datatype Unit = Unit(own: seq<nat>, reg: map<nat, R.Table>, interfaces: seq<Interface>, boundaries: seq<Side>,
                       cuts: seq<R.CutBoundary>, sizes: seq<seq<nat>>)

  /** The units of the machine by code, and what became of each. */
  datatype Machine = Machine(w: Prepared, codes: seq<nat>, units: seq<Unit>, numGp: nat -> nat) {
    /** Every unit of an element exists, and every unit's initialization succeeded. */
    ghost predicate Valid() {
      && w.Valid() && |units| == |codes|
      && Distinct(codes) && (forall e | e in w.code :: w.code[e] in codes)
      && (forall i | 0 <= i < |units| :: Initialized(i))
    }

    ghost predicate Initialized(i: nat)
      requires w.Valid() && i < |units| == |codes|
    {
      var x := units[i];
      && w.OwnedBy(codes[i], x.own)
      && R.Registered(Restrict(w.neighbor, x.own), Restrict(Marked(w), x.own), R.SidesOfElements(x.own), x.reg)
      && R.Built(x.reg, w.Read(codes[i]), w.kinds, numGp, x.interfaces, x.boundaries, x.cuts, x.sizes)
    }

    /** The position of a unit's code. */
    ghost function IndexOf(code: nat): (i: nat)
      ensures code in codes ==> i < |codes| && codes[i] == code
    {
      if code in codes then
        var i :| 0 <= i < |codes| && codes[i] == code;
        i
      else 0
    }

    ghost function Far(b: RankBoundary): nat {
      IndexOf(CodeEx(w.numLoc, b))
    }

    ghost function DBoundOf(c: R.CutBoundary): DBound {
      DBound(c.side, IndexOf(Code(w.numLoc, c.locality, c.submesh)), if |c.offsets| > DBATH then c.offsets[DBATH]
             else 0)
    }

    ghost function PartOf(i: nat): Part
      requires i < |units|
    {
      var x := units[i];
      Part(x.own, x.interfaces, x.boundaries, seq(|x.cuts|, j requires 0 <= j < |x.cuts| => DBoundOf(x.cuts[j])))
    }

    ghost function Parts(): (ps: seq<Part>)
      ensures |ps| == |units|
    {
      seq(|units|, i requires 0 <= i < |units| => PartOf(i))
    }

    ghost function MeshOf(): Mesh {
      Mesh(set e | e in w.code, map s | s in w.neighbor && w.neighbor[s] != DEFAULT_ID ::
           MirroredReading.Far(w.neighbor, s))
    }

    ghost function Owner(): map<nat, nat> {
      map e | e in w.code :: IndexOf(w.code[e])
    }

    /** Ranks, ids, neighbours and buffers follow from the codes and the metadata. */
    ghost predicate LaidOut(l: Layout)
      requires w.Valid()
    {
      && |l.rank| == |l.submesh| == |l.thread| == |l.nbrs| == |l.init| == |codes| == |units|
      && (forall i | 0 <= i < |codes| ::
          l.rank[i] == codes[i] % w.numLoc && l.submesh[i] == codes[i] / w.numLoc < 0x8000)
      && (forall i, v | 0 <= i < |codes| :: v in l.nbrs[i] <==> Beyond(i, v))
      && (forall i, j | 0 <= i < |codes| && 0 <= j < |w.Read(codes[i])| :: BufferFits(l, i, j))
    }

    /** Unit i reads a rank boundary towards unit v. */
    ghost predicate Beyond(i: nat, v: nat)
      requires w.Valid() && i < |codes|
    {
      exists j :: 0 <= j < |w.Read(codes[i])| && Far(w.Read(codes[i])[j]) == v
    }

    /** The buffer towards the neighbour of rank boundary j was resized to the slots handed out. */
    ghost predicate BufferFits(l: Layout, i: nat, j: nat)
      requires w.Valid() && i < |codes| == |units| == |l.init| && j < |w.Read(codes[i])|
    {
      j < |units[i].sizes| && |units[i].sizes[j]| == N_COMMUNICATIONS
      && |Buffer(l.init[i].send, Far(w.Read(codes[i])[j]))| == units[i].sizes[j][DBATH]
    }

    /** The quadrature of a cut face is the one its slot was sized for. */
    ghost predicate Quadrature(o: Ops) {
      o.WellFormed(MeshOf()) && forall s | w.Cut(s) :: o.ngp(s) == numGp(2 * w.p + 1)
    }
  }

  lemma MeshIsWellFormed(c: Machine)
    requires c.w.Valid()
    ensures c.MeshOf().WellFormed()
  {
    var m, w := c.MeshOf(), c.w;
    forall s | s in m.nb
      ensures m.Has(s) && m.nb[s] in m.nb && m.nb[m.nb[s]] == s && m.nb[s].elt != s.elt
    {
      assert s.elt in w.elements && s.face < 3;
      ValidBasics(w, w.code[s.elt], s);
      assert m.nb[s].elt in w.elements;
    }
  }

  // ----- neighbours -----

  /** The unit beyond a rank boundary exists, is another one, and its lists are as long as they should be. */
  lemma ReadBasics(c: Machine, i: nat, j: nat)
    requires c.Valid() && i < |c.codes| && j < |c.w.Read(c.codes[i])|
    ensures var b := c.w.Read(c.codes[i])[j];
            && Rectangular(b) && CodeEx(c.w.numLoc, b) != c.codes[i] && CodeEx(c.w.numLoc, b) in c.codes
            && c.codes[c.Far(b)] == CodeEx(c.w.numLoc, b) && (forall k | 0 <= k < |b.p| :: b.p[k] == c.w.p)
  {
    var w, u := c.w, c.codes[i];
    ReadFollowsKeys(w.shared, w.keys, w.numLoc, u);
    var key := KeysOf(w.keys, u, |w.keys|)[j];
    KeysAreOrdered(w.neighbor, w.code, w.order, w.p, w.shared, w.keys, w.numLoc, key);
    CodeOfView(w.numLoc, key, w.shared[key], u);
    assert ListOf(w.shared, key) != [];
    forall k | 0 <= k < |w.Read(u)[j].elementsIn|
      ensures w.Read(u)[j].p[k] == w.p && CodeEx(w.numLoc, w.Read(u)[j]) in c.codes
    {
      ReadFacesAreCut(w.neighbor, w.code, w.order, w.p, w.shared, w.keys, w.numLoc, u, j, k);
    }
    assert |w.Read(u)[j].elementsIn| == |w.shared[key]|;
    assert w.Read(u)[j].p[0] == w.p;
  }

  /** The neighbour's rank boundary towards unit i: the mirror image, and the only one. */
  lemma Opposite(c: Machine, i: nat, j: nat) returns (k: nat)
    requires c.Valid() && i < |c.codes| && j < |c.w.Read(c.codes[i])|
    ensures var b := c.w.Read(c.codes[i])[j];
            && c.Far(b) < |c.codes| && k < |c.w.Read(c.codes[c.Far(b)])|
            && MirrorImages(b, c.w.Read(c.codes[c.Far(b)])[k]) && c.Far(c.w.Read(c.codes[c.Far(b)])[k]) == i
    ensures forall k' | 0 <= k' < |c.w.Read(c.codes[i])|
            && c.Far(c.w.Read(c.codes[i])[k']) == c.Far(c.w.Read(c.codes[i])[j]) ::
              k' == j
  {
    var w, u := c.w, c.codes[i];
    AllKeysOrdered(c);
    ReadBasics(c, i, j);
    var b := w.Read(u)[j];
    k := ReadersMirror(w.shared, w.keys, w.numLoc, u, j);
    var v := c.Far(b);
    var b' := w.Read(c.codes[v])[k];
    assert CodeEx(w.numLoc, b') == CodeIn(w.numLoc, b) == u;
    ReadBasics(c, v, k);
    var j' := ReadersMirror(w.shared, w.keys, w.numLoc, c.codes[v], k);
    forall k' | 0 <= k' < |w.Read(u)| && c.Far(w.Read(u)[k']) == v
      ensures k' == j
    {
      ReadBasics(c, i, k');
    }
  }

  lemma AllKeysOrdered(c: Machine)
    requires c.w.Valid()
    ensures forall key | key in c.w.shared :: key.0 < key.1
  {
    var w := c.w;
    forall key | key in w.shared
      ensures key.0 < key.1
    {
      KeysAreOrdered(w.neighbor, w.code, w.order, w.p, w.shared, w.keys, w.numLoc, key);
    }
  }

  lemma ExchangeIsWellFormed(c: Machine, o: Ops, l: Layout)
    requires c.Valid() && c.LaidOut(l)
    ensures Exchange(o, c.Parts(), l).WellFormed()
  {
    var x := Exchange(o, c.Parts(), l);
    forall i: nat, v: nat | x.Nbr(i, v)
      ensures v < |l.rank| && v != i && x.Nbr(v, i)
    {
      assert c.Beyond(i, v);
      BeyondIsMutual(c, i, v);
    }
    forall i, v | 0 <= i < v < |l.rank|
      ensures x.rank[i] != x.rank[v] || x.submesh[i] != x.submesh[v]
    {
      PlaceGivesCode(c.w.numLoc, c.codes[i], c.codes[v]);
    }
  }

  lemma PlaceGivesCode(numLoc: nat, a: nat, b: nat)
    requires numLoc > 0 && a != b
    ensures a % numLoc != b % numLoc || a / numLoc != b / numLoc
  {
  }

  lemma BeyondIsMutual(c: Machine, i: nat, v: nat)
    requires c.Valid() && i < |c.codes| && c.Beyond(i, v)
    ensures v < |c.codes| && v != i && c.Beyond(v, i)
  {
    var j :| 0 <= j < |c.w.Read(c.codes[i])| && c.Far(c.w.Read(c.codes[i])[j]) == v;
    ReadBasics(c, i, j);
    var k := Opposite(c, i, j);
  }

  // ----- slots -----

  /** Cut face number n of a list of rank boundaries is face k of boundary j. */
  lemma {:induction false} CutPosition(reg: map<nat, R.Table>, bs: seq<RankBoundary>, numGp: nat -> nat, last: nat,
                                       n: nat)
    returns (j: nat, k: nat)
    requires last <= |bs| && R.AllCutsFound(reg, bs, last) && n < |R.AllCuts(reg, bs, numGp, last)|
    ensures j < last && R.AllFound(reg, bs[j]) && k < |bs[j].p|
    ensures R.AllCuts(reg, bs, numGp, last)[n] == R.CutAt(reg, bs[j], numGp, k)
  {
    assert R.AllFound(reg, bs[last - 1]);
    var before := |R.AllCuts(reg, bs, numGp, last - 1)|;
    if n < before {
      j, k := CutPosition(reg, bs, numGp, last - 1, n);
    } else {
      j, k := last - 1, n - before;
    }
  }

  lemma {:induction false} CutIndex(reg: map<nat, R.Table>, bs: seq<RankBoundary>, numGp: nat -> nat, last: nat,
                                    j: nat, k: nat)
    returns (n: nat)
    requires last <= |bs| && R.AllCutsFound(reg, bs, last) && j < last && k < |bs[j].p|
    ensures R.AllFound(reg, bs[j]) && n < |R.AllCuts(reg, bs, numGp, last)|
    ensures R.AllCuts(reg, bs, numGp, last)[n] == R.CutAt(reg, bs[j], numGp, k)
  {
    assert R.AllFound(reg, bs[last - 1]);
    if j < last - 1 {
      n := CutIndex(reg, bs, numGp, last - 1, j, k);
    } else {
      n := |R.AllCuts(reg, bs, numGp, last - 1)| + k;
    }
  }

  /** Face k of rank boundary j of unit i became distributed boundary b. */
  ghost predicate At(c: Machine, i: nat, j: nat, k: nat, b: DBound)
    requires c.Valid() && i < |c.codes| && j < |c.w.Read(c.codes[i])|
  {
    var r := c.w.Read(c.codes[i])[j];
    && Rectangular(r) && k < |r.p| && b.side == FaceIn(r, k) && b.peer == c.Far(r)
    && b.offset == OffsetAt(R.GaussPoints(r, c.numGp), k, DBATH)
  }

  lemma BuiltFace(c: Machine, i: nat, j: nat, k: nat)
    requires c.Valid() && i < |c.codes| && j < |c.w.Read(c.codes[i])|
    requires R.AllFound(c.units[i].reg, c.w.Read(c.codes[i])[j]) && k < |c.w.Read(c.codes[i])[j].p|
    ensures At(c, i, j, k, c.DBoundOf(R.CutAt(c.units[i].reg, c.w.Read(c.codes[i])[j], c.numGp, k)))
  {
    assert c.Initialized(i);
    RegistersAll(c.w, c.codes[i], c.units[i].own, c.units[i].reg);
    ReadFaceFound(c.w, c.codes[i], c.units[i].reg, j, k);
  }

  lemma PositionOf(c: Machine, i: nat, n: nat) returns (j: nat, k: nat)
    requires c.Valid() && i < |c.codes| && n < |c.units[i].cuts|
    ensures j < |c.w.Read(c.codes[i])| && At(c, i, j, k, c.PartOf(i).dbounds[n])
  {
    assert c.Initialized(i);
    var bs, x := c.w.Read(c.codes[i]), c.units[i];
    j, k := CutPosition(x.reg, bs, c.numGp, |bs|, n);
    BuiltFace(c, i, j, k);
  }

  lemma IndexAt(c: Machine, i: nat, j: nat, k: nat) returns (n: nat)
    requires c.Valid() && i < |c.codes| && j < |c.w.Read(c.codes[i])| && k < |c.w.Read(c.codes[i])[j].p|
    ensures n < |c.units[i].cuts| && At(c, i, j, k, c.PartOf(i).dbounds[n])
  {
    assert c.Initialized(i);
    var bs, x := c.w.Read(c.codes[i]), c.units[i];
    n := CutIndex(x.reg, bs, c.numGp, |bs|, j, k);
    BuiltFace(c, i, j, k);
  }

  /** All faces of a rank boundary have the same number of Gauss points. */
  lemma EvenGaussPoints(c: Machine, o: Ops, i: nat, j: nat, k: nat, b: DBound)
    requires c.Valid() && c.Quadrature(o) && i < |c.codes| && j < |c.w.Read(c.codes[i])| && At(c, i, j, k, b)
    ensures o.ngp(b.side) == R.GaussPoints(c.w.Read(c.codes[i])[j], c.numGp)[k]
    ensures Width(DBATH, o.ngp(b.side)) == N_DDBATH_TERMS * o.ngp(b.side)
  {
    PositionIsCut(c, i, j, k, b);
    CutQuadrature(c, o, b.side, c.w.Read(c.codes[i])[j], k);
  }

  lemma CutQuadrature(c: Machine, o: Ops, s: Side, r: RankBoundary, k: nat)
    requires c.w.Valid() && c.Quadrature(o) && c.w.Cut(s) && k < |r.p| && r.p[k] == c.w.p
    ensures o.ngp(s) == R.GaussPoints(r, c.numGp)[k]
    ensures Width(DBATH, o.ngp(s)) == N_DDBATH_TERMS * o.ngp(s)
  {
  }

  lemma PositionIsCut(c: Machine, i: nat, j: nat, k: nat, b: DBound)
    requires c.Valid() && i < |c.codes| && j < |c.w.Read(c.codes[i])| && At(c, i, j, k, b)
    ensures c.w.Cut(b.side) && c.w.Read(c.codes[i])[j].p[k] == c.w.p
  {
    var w := c.w;
    ReadFacesAreCut(w.neighbor, w.code, w.order, w.p, w.shared, w.keys, w.numLoc, c.codes[i], j, k);
  }

  lemma SlotsOfPairApart(c: Machine, o: Ops, i: nat, j: nat, k: nat, b: DBound, k': nat, b': DBound)
    requires c.Valid() && c.Quadrature(o) && i < |c.codes| && j < |c.w.Read(c.codes[i])|
    requires At(c, i, j, k, b) && At(c, i, j, k', b') && k < k'
    ensures b.offset + N_DDBATH_TERMS * o.ngp(b.side) <= b'.offset
  {
    EvenGaussPoints(c, o, i, j, k, b);
    SlotsApart(R.GaussPoints(c.w.Read(c.codes[i])[j], c.numGp), k, k', DBATH);
  }

  /** Slots of one unit towards one neighbour never overlap. */
  lemma DBoundsApart(c: Machine, o: Ops, i: nat, n: nat, n': nat)
    requires c.Valid() && c.Quadrature(o) && i < |c.codes| && n < n' < |c.units[i].cuts|
    requires c.PartOf(i).dbounds[n].side != c.PartOf(i).dbounds[n'].side
    ensures Apart(o, c.PartOf(i).dbounds[n], c.PartOf(i).dbounds[n'])
  {
    var b, b' := c.PartOf(i).dbounds[n], c.PartOf(i).dbounds[n'];
    var j, k := PositionOf(c, i, n);
    var j', k' := PositionOf(c, i, n');
    if b.peer == b'.peer {
      var far := Opposite(c, i, j);
      assert j' == j;
      if k < k' {
        SlotsOfPairApart(c, o, i, j, k, b, k', b');
      } else {
        assert k' != k;
        SlotsOfPairApart(c, o, i, j, k', b', k, b);
      }
    }
  }

  /** The slot lies inside the buffer. */
  lemma DBoundHasRoom(c: Machine, o: Ops, l: Layout, i: nat, n: nat)
    requires c.Valid() && c.Quadrature(o) && c.LaidOut(l) && i < |c.codes| && n < |c.units[i].cuts|
    ensures HasRoom(o, l.init[i].send, c.PartOf(i).dbounds[n])
  {
    var j, k := PositionOf(c, i, n);
    var b := c.PartOf(i).dbounds[n];
    EvenGaussPoints(c, o, i, j, k, b);
    var r := c.w.Read(c.codes[i])[j];
    var ngps := R.GaussPoints(r, c.numGp);
    SlotsApart(ngps, k, k + 1, DBATH);
    assert c.Initialized(i) && c.BufferFits(l, i, j);
    assert R.Sized(r, c.numGp, c.units[i].sizes[j]);
  }

  /** The far side of a cut face has the same slot of the same pair of buffers. */
  lemma DBoundHasMirror(c: Machine, i: nat, n: nat) returns (n': nat)
    requires c.Valid() && i < |c.codes| && n < |c.units[i].cuts|
    ensures var b := c.PartOf(i).dbounds[n];
            b.peer < |c.codes| && n' < |c.units[b.peer].cuts| && Mirror(c.MeshOf(), i, b, c.PartOf(b.peer).dbounds[n'])
  {
    var w, b := c.w, c.PartOf(i).dbounds[n];
    var j, k := PositionOf(c, i, n);
    var r := w.Read(c.codes[i])[j];
    ReadFacesAreCut(w.neighbor, w.code, w.order, w.p, w.shared, w.keys, w.numLoc, c.codes[i], j, k);
    FarTwice(w.neighbor, b.side);
    var j' := Opposite(c, i, j);
    n' := IndexAt(c, b.peer, j', k);
    var r' := w.Read(c.codes[b.peer])[j'];
    assert FaceIn(r', k) == FaceEx(r, k);
    assert R.GaussPoints(r', c.numGp) == R.GaussPoints(r, c.numGp);
  }

  // ----- main results -----

  lemma PartFitsMesh(c: Machine, o: Ops, i: nat)
    requires c.Valid() && c.Quadrature(o) && i < |c.codes|
    ensures PartFits(c.MeshOf(), o, c.Owner(), i, c.PartOf(i))
  {
    var p := c.PartOf(i);
    PartSidesExact(c, i);
    PartObjectsJoined(c, i);
    forall n, n' | 0 <= n < n' < |p.dbounds|
      ensures Apart(o, p.dbounds[n], p.dbounds[n'])
    {
      DBoundSidesDiffer(p, n, n');
      DBoundsApart(c, o, i, n, n');
    }
    forall e
      ensures e in p.elements <==> e in c.MeshOf().elements && e in c.Owner() && c.Owner()[e] == i
    {
      PartOwns(c, i, e);
    }
  }

  /** The objects of a unit have each face of its elements once. */
  lemma PartSidesExact(c: Machine, i: nat)
    requires c.Valid() && i < |c.codes|
    ensures forall j, k | 0 <= j < k < |SidesOf(c.PartOf(i))| :: SidesOf(c.PartOf(i))[j] != SidesOf(c.PartOf(i))[k]
    ensures forall s {:trigger s in SidesOf(c.PartOf(i))} ::
              s in SidesOf(c.PartOf(i)) <==> s.elt in c.PartOf(i).elements && s.face < 3
  {
    var x := c.units[i];
    assert c.Initialized(i);
    EveryFaceHasOneFate(c.w, c.codes[i], x.own, x.reg, c.numGp, c.PartOf(i), x.cuts, x.sizes);
    forall s
      ensures s in SidesOf(c.PartOf(i)) <==> s.elt in c.PartOf(i).elements && s.face < 3
    {
      MineMeansOwn(c, i, s);
    }
  }

  /** Its interfaces join neighbours of the mesh, and its boundaries have none. */
  lemma PartObjectsJoined(c: Machine, i: nat)
    requires c.Valid() && i < |c.codes|
    ensures forall j | 0 <= j < |c.PartOf(i).interfaces| ::
              var f := c.PartOf(i).interfaces[j];
              f.inner in c.MeshOf().nb && c.MeshOf().nb[f.inner] == f.outer
    ensures forall j | 0 <= j < |c.PartOf(i).boundaries| :: c.PartOf(i).boundaries[j] !in c.MeshOf().nb
  {
    var p := c.PartOf(i);
    PartObjectsProper(c, i);
    forall j | 0 <= j < |p.interfaces|
      ensures var f := p.interfaces[j]; f.inner in c.MeshOf().nb && c.MeshOf().nb[f.inner] == f.outer
    {
      assert JoinsInside(c.w, c.codes[i], p.interfaces[j]);
    }
    forall j | 0 <= j < |p.boundaries|
      ensures p.boundaries[j] !in c.MeshOf().nb
    {
      assert p.boundaries[j] in p.boundaries;
    }
  }

  lemma PartObjectsProper(c: Machine, i: nat)
    requires c.Valid() && i < |c.codes|
    ensures Proper(c.w, c.codes[i], c.PartOf(i).interfaces)
    ensures forall s | s in c.PartOf(i).boundaries :: s in c.w.neighbor && c.w.neighbor[s] == DEFAULT_ID
  {
    var x := c.units[i];
    assert c.Initialized(i);
    EveryFaceHasOneFate(c.w, c.codes[i], x.own, x.reg, c.numGp, c.PartOf(i), x.cuts, x.sizes);
  }

  lemma MineMeansOwn(c: Machine, i: nat, s: Side)
    requires c.Valid() && i < |c.codes|
    ensures c.w.Mine(c.codes[i], s) <==> s.elt in c.PartOf(i).elements && s.face < 3
  {
    assert c.Initialized(i);
  }

  lemma PartOwns(c: Machine, i: nat, e: nat)
    requires c.Valid() && i < |c.codes|
    ensures e in c.PartOf(i).elements <==> e in c.MeshOf().elements && e in c.Owner() && c.Owner()[e] == i
  {
    assert c.Initialized(i);
    if e in c.w.code {
      assert c.w.code[e] in c.codes && c.codes[c.IndexOf(c.w.code[e])] == c.w.code[e];
    }
  }

  lemma CutFitsMesh(c: Machine, o: Ops, l: Layout, i: nat, n: nat)
    requires c.Valid() && c.Quadrature(o) && c.LaidOut(l) && i < |c.codes| && n < |c.units[i].cuts|
    ensures CutFits(c.MeshOf(), o, c.Parts(), l.init[i].send, i, c.PartOf(i).dbounds[n])
    ensures Exchange(o, c.Parts(), l).Nbr(i, c.PartOf(i).dbounds[n].peer)
  {
    DBoundHasRoom(c, o, l, i, n);
    var b := c.PartOf(i).dbounds[n];
    var n' := DBoundHasMirror(c, i, n);
    assert c.Parts()[b.peer] == c.PartOf(b.peer);
    var j, k := PositionOf(c, i, n);
    assert c.Beyond(i, b.peer);
  }

  /** What the preprocessor builds is a network on which the exchange is correct. */
  lemma PipelineBuildsNetwork(c: Machine, o: Ops, l: Layout)
    requires c.Valid() && c.Quadrature(o) && c.LaidOut(l)
    ensures Network(c.MeshOf(), o, c.Owner(), c.Parts(), l)
  {
    MeshIsWellFormed(c);
    ExchangeIsWellFormed(c, o, l);
    forall i | 0 <= i < |c.codes|
      ensures PartFits(c.MeshOf(), o, c.Owner(), i, c.Parts()[i])
    {
      PartFitsMesh(c, o, i);
    }
    forall i, n | 0 <= i < |c.codes| && 0 <= n < |c.Parts()[i].dbounds|
      ensures CutFits(c.MeshOf(), o, c.Parts(), l.init[i].send, i, c.Parts()[i].dbounds[n])
      ensures Exchange(o, c.Parts(), l).Nbr(i, c.Parts()[i].dbounds[n].peer)
    {
      CutFitsMesh(c, o, l, i, n);
    }
  }

  /**
   End to end: however the mesh is partitioned, whatever order its pairs, files and tables are visited in, and however
   threads and messages interleave, every unit that has unpacked r rounds has on every element the r-th derivatives of
   the undivided mesh, and after a finished exchange all three have been there.
   */
  lemma PipelineComputesDerivatives(c: Machine, o: Ops, l: Layout, run: seq<State<UnitData, seq<real>>>,
                                    moves: seq<Move>,
                                    t: nat, i: nat, e: nat)
    requires c.Valid() && c.Quadrature(o) && c.LaidOut(l) && i < |c.codes| && e in c.units[i].own
    requires Exchange(o, c.Parts(), l).WellFormed()
    requires Run(Exchange(o, c.Parts(), l), run, moves) && t < |run|
    ensures i < |run[t].pos| && i < |run[t].data|
    ensures var r := Unpacked(run[t].pos[i]);
            && (0 < r ==> Get(run[t].data[i].rows, e) == Derivative(c.MeshOf(), o, r, e))
            && r <= PASSES && (Finished(Exchange(o, c.Parts(), l), run[t]) ==> r == PASSES)
  {
    PipelineBuildsNetwork(c, o, l);
    assert c.Parts()[i] == c.PartOf(i);
    DistributedEqualsUndivided(c.MeshOf(), o, c.Owner(), c.Parts(), l, run, moves, t, i, e);
  }
}
