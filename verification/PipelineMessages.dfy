/**
 From the mesh to the delivered indices: the rank boundaries that the preprocessor builds are the channels of the index
 round, so after every interleaving of its messages the two sides of every cut face hold one index vector.
 */
module PipelineMessages {
  import opened HaloProtocol
  import opened IndexExchange
  import opened IndexMessages
  import opened Pipeline
  import opened PipelineNumbering
  import Dofs = DofNumbering

  /** The places of the built units, in the order of their codes. */
  ghost function UnitPlaces(c: Pipeline.Machine): (at: seq<Place>)
    requires c.Valid()
    ensures |at| == |c.codes|
  {
    seq(|c.codes|, i requires 0 <= i < |c.codes| => Place(RankOf(c, i), UnitOf(c, i)))
  }

  lemma PlacesDiffer(c: Pipeline.Machine, i: nat, j: nat)
    requires c.Valid() && i < |c.codes| && j < |c.codes| && i != j
    ensures UnitPlaces(c)[i] != UnitPlaces(c)[j]
  {
    PlaceGivesCode(c.w.numLoc, c.codes[i], c.codes[j]);
  }

  lemma UnitsAreCounted(c: Pipeline.Machine, m: Numbered, places: seq<seq<nat>>, ndof: nat)
    requires c.Valid() && Arranged(c, m, places, ndof)
    ensures Counts(m, UnitPlaces(c))
  {
    var at := UnitPlaces(c);
    forall i | 0 <= i < |at|
      ensures at[i].rank < |m| && at[i].unit < |m[at[i].rank]|
    {
      assert UnitArranged(c, m, places[i], ndof, i);
    }
    forall r, u | 0 <= r < |m| && 0 <= u < |m[r]|
      ensures Place(r, u) in at
    {
      assert UnitBuilt(c, r, u);
      var i :| 0 <= i < |c.codes| && RankOf(c, i) == r && UnitOf(c, i) == u;
      assert at[i] == Place(r, u);
    }
    forall i, j | 0 <= i < j < |at|
      ensures at[i] != at[j]
    {
      PlacesDiffer(c, i, j);
    }
  }

  /** A wired port belongs to a rank boundary, and leads back from the unit beyond. */
  lemma PortIsBoundary(c: Pipeline.Machine, w: Wiring, p: Port) returns (i: nat, j: nat, v: nat, k: nat)
    requires c.Valid() && Wired(c, w) && p in w
    ensures FacingPorts(c, i, j, v, k, p, w[p]) && Facing(c, v, k, i, j) && i != v
    ensures w[p] in w && w[w[p]] == p && Home(w[p]) != Home(p)
  {
    i, j, v, k :| FacingPorts(c, i, j, v, k, p, w[p]);
    assert Facing(c, v, k, i, j);
    FacingUnitsDiffer(c, i, j, v, k);
  }

  lemma FacingUnitsDiffer(c: Pipeline.Machine, i: nat, j: nat, v: nat, k: nat)
    requires c.Valid() && Facing(c, i, j, v, k)
    ensures i != v && Home(PortAt(c, i, j)) != Home(PortAt(c, v, k))
  {
    EndsOf(c, i, j);
    PlacesDiffer(c, i, v);
  }

  /** Two ports of one unit that lead to one unit are one. */
  lemma OnePortEach(c: Pipeline.Machine, w: Wiring, p: Port, q: Port)
    requires c.Valid() && Wired(c, w) && p in w && q in w && Home(p) == Home(q) && Home(w[p]) == Home(w[q])
    ensures p == q
  {
    var i, j, v, k := PortIsBoundary(c, w, p);
    var i', j', v', k' := PortIsBoundary(c, w, q);
    SameUnit(c, i, i');
    SameUnit(c, v, v');
    EndsOf(c, i, j);
    EndsOf(c, i, j');
    OneBoundaryEach(c, i, j, j');
  }

  lemma SameUnit(c: Pipeline.Machine, i: nat, j: nat)
    requires c.Valid() && i < |c.codes| && j < |c.codes| && RankOf(c, i) == RankOf(c, j) && UnitOf(c, i) == UnitOf(c, j)
    ensures i == j
  {
    if i != j {
      PlacesDiffer(c, i, j);
    }
  }

  lemma BoundariesArePaired(c: Pipeline.Machine, w: Wiring)
    requires c.Valid() && Wired(c, w)
    ensures PairWired(w)
  {
    forall p | p in w
      ensures w[p] in w && w[w[p]] == p && Home(w[p]) != Home(p)
    {
      var i, j, v, k := PortIsBoundary(c, w, p);
    }
    forall p, q | p in w && q in w && Home(p) == Home(q) && Home(w[p]) == Home(w[q])
      ensures p == q
    {
      OnePortEach(c, w, p, q);
    }
  }

  /** What initialization builds can run the index round. */
  lemma PipelineRunsIndexRound(c: Pipeline.Machine, m: Numbered, places: seq<seq<nat>>, ndof: nat, w: Wiring,
                               thread: seq<nat>)
    requires c.Valid() && Arranged(c, m, places, ndof) && Wired(c, w) && |thread| == |c.codes|
    requires forall i | 0 <= i < |c.codes| :: UnitOf(c, i) < 0x8000
    ensures Coupled(m, w) && Counts(m, UnitPlaces(c)) && PairWired(w)
    ensures IndexRound(m, w, UnitPlaces(c), thread).WellFormed()
            && IndexRound(m, w, UnitPlaces(c), thread).BuffersFramed()
  {
    PipelineCouplesNumbering(c, m, places, ndof, w);
    UnitsAreCounted(c, m, places, ndof);
    BoundariesArePaired(c, w);
    IndexRoundWellFormed(m, w, UnitPlaces(c), thread);
    IndexRoundFramed(m, w, UnitPlaces(c), thread);
  }

  /**
   End to end, messages included: for every mesh and partition and every interleaving of the index round, once it has
   finished, the two units at a cut face hold for it one index vector of full length, which one of them numbered.
   */
  lemma CutFacesAgreeAfterRound(c: Pipeline.Machine, m: Numbered, places: seq<seq<nat>>, ndof: nat, w: Wiring,
                                thread: seq<nat>, run: seq<State<Dofs.Unit, seq<real>>>, moves: seq<Move>, i: nat,
                                    d: nat)
    returns (v: nat, d': nat)
    requires c.Valid() && Arranged(c, m, places, ndof) && Wired(c, w) && i < |c.codes| && d < |places[i]|
    requires Coupled(m, w) && Counts(m, UnitPlaces(c))
    requires Run(IndexRound(m, w, UnitPlaces(c), thread), run, moves)
    requires Finished(IndexRound(m, w, UnitPlaces(c), thread), run[|moves|])
    ensures v < |c.codes| && d' < |places[v]| && places[i][d] < |c.units[i].cuts| && places[v][d'] < |c.units[v].cuts|
    ensures var s, s' := c.units[i].cuts[places[i][d]].side, c.units[v].cuts[places[v][d']].side;
            s in c.MeshOf().nb && c.MeshOf().nb[s] == s'
    ensures i < |run[|moves|].data| && v < |run[|moves|].data|
    ensures OneVector(run[|moves|].data[i], d, run[|moves|].data[v], d', ndof)
  {
    v, d' := CutFaceHasMate(c, m, places, ndof, w, i, d);
    BoundariesArePaired(c, w);
    EdgeWidth(c, m, places, ndof, i, d);
    MatesAgreeAfterRound(m, w, UnitPlaces(c), thread, run, moves, i, d, v, d');
  }

  lemma EdgeWidth(c: Pipeline.Machine, m: Numbered, places: seq<seq<nat>>, ndof: nat, i: nat, d: nat)
    requires c.Valid() && Arranged(c, m, places, ndof) && i < |c.codes| && d < |places[i]|
    ensures Exists(m, RefAt(c, i, d)) && Edge(m, RefAt(c, i, d)).ndof == ndof
  {
    assert UnitArranged(c, m, places[i], ndof, i);
  }
}
