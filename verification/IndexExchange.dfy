/**
 The exchange of first indices over cut edges, and the rank's concatenated index list.
 Channels are a wiring of rank-boundary ports: what one port sends, its partner receives.
 */
module IndexExchange {
  import opened Sequences
  import opened DofNumbering

  /** One end of a rank boundary: the buffers `link` of unit `unit` on rank `rank`. */
  datatype Port = Port(rank: nat, unit: nat, link: nat)

  /** A cut edge as seen from one unit: position edge among the unit's distributed edges. */
  datatype EdgeRef = EdgeRef(rank: nat, unit: nat, edge: nat)

  type Wiring = map<Port, Port>

  ghost predicate Exists(m: Machine, e: EdgeRef) {
    e.rank < |m| && e.unit < |m[e.rank]| && e.edge < |m[e.rank][e.unit].distributeds|
  }

  ghost function Edge(m: Machine, e: EdgeRef): DistributedEdge
    requires Exists(m, e)
  {
    m[e.rank][e.unit].distributeds[e.edge]
  }

  ghost function PortOf(m: Machine, e: EdgeRef): Port
    requires Exists(m, e)
  {
    Port(e.rank, e.unit, Edge(m, e).exchanger.link)
  }

  /** e and f are the two sides of one cut edge: mirrored exchangers, wired ports, same slot, same trace order. */
  ghost predicate Mates(m: Machine, w: Wiring, e: EdgeRef, f: EdgeRef) {
    && Exists(m, e) && Exists(m, f)
    && PortOf(m, e) in w && w[PortOf(m, e)] == PortOf(m, f)
    && PortOf(m, f) in w && w[PortOf(m, f)] == PortOf(m, e)
    && (e.rank != f.rank || e.unit != f.unit)
    && Edge(m, e).ndof == Edge(m, f).ndof
    && var x, y := Edge(m, e).exchanger, Edge(m, f).exchanger;
       && x.localityIn == y.localityEx == e.rank && x.submeshIn == y.submeshEx == e.unit
       && x.localityEx == y.localityIn == f.rank && x.submeshEx == y.submeshIn == f.unit
       && x.offset == y.offset
  }

  /** Every port leads to an existing port with equally long buffers, and every cut edge has its other side. */
  ghost predicate Coupled(m: Machine, w: Wiring) {
    && Ready(m)
    && (forall p | p in w ::
          && w[p].rank < |m| && w[p].unit < |m[w[p].rank]|
          && w[p].link < |m[w[p].rank][w[p].unit].send|
          && p.rank < |m| && p.unit < |m[p.rank]| && p.link < |m[p.rank][p.unit].recv|
          && |m[w[p].rank][w[p].unit].send[w[p].link]| == |m[p.rank][p.unit].recv[p.link]|)
    && (forall e {:trigger HasMate(m, w, e)} | Exists(m, e) :: HasMate(m, w, e))
  }

  ghost predicate HasMate(m: Machine, w: Wiring, e: EdgeRef) {
    exists f :: Mates(m, w, e, f)
  }

  /** The buffers a unit holds once every message has arrived. */
  ghost function Arrived(m: Machine, w: Wiring, r: nat, u: nat): (b: seq<seq<real>>)
    requires Coupled(m, w) && r < |m| && u < |m[r]|
    ensures |b| == |m[r][u].recv|
  {
    seq(|m[r][u].recv|, l requires 0 <= l < |m[r][u].recv| =>
      if Port(r, u, l) in w then
          NumberedUnit(m, w[Port(r, u, l)].rank, w[Port(r, u, l)].unit).send[w[Port(r, u, l)].link]
      else m[r][u].recv[l])
  }

  lemma NumberedDistributedEdge(m: Machine, e: EdgeRef)
    requires Ready(m) && Exists(m, e)
    ensures e.edge < |NumberedUnit(m, e.rank, e.unit).distributeds| == |m[e.rank][e.unit].distributeds|
    ensures var d := NumberedUnit(m, e.rank, e.unit).distributeds[e.edge];
            && d.exchanger == Edge(m, e).exchanger
            && d.ndof == Edge(m, e).ndof
            && (d.exchanger.Owner()
                ==> (d.indx == Range(FirstIndex(m, e), Width(Edge(m, e).ndof)) && d.bound == d.indx))
  {
    EdgeOfNumberedUnit(m[e.rank][e.unit], UnitOffset(m, e.rank, e.unit), e.edge);
  }

  lemma EdgeOfNumberedUnit(u: Unit, offset: nat, k: nat)
    requires u.SlotsExist() && u.HasDofs() && k < |u.distributeds|
    ensures PreSend(u, 0).Sized() && PreSend(u, 0).SlotsExist() && PreSend(u, 0).HasDofs()
    ensures |Finalized(PreSend(u, 0), offset).distributeds| == |u.distributeds|
    ensures var d, d' := u.distributeds[k], Finalized(PreSend(u, 0), offset).distributeds[k];
            && d'.exchanger == d.exchanger && d'.ndof == d.ndof
            && (d.exchanger.Owner() ==>
                  d'.indx == Range(Start(u, offset, |u.interfaces| + |u.boundaries| + k), Width(d.ndof))
                      && d'.bound == d'.indx)
  {
    var start := Start(u, 0, |u.interfaces| + |u.boundaries| + k);
    NumberedThenShifted(u, offset, k);
    EdgeNumberedThenShifted(u.distributeds[k], start, offset);
  }

  lemma EdgeNumberedThenShifted(d: DistributedEdge, start: nat, offset: nat)
    ensures var d' := ShiftedDistributed(NumberedDistributed(d, start), offset);
            && d'.exchanger == d.exchanger && d'.ndof == d.ndof
            && (d.exchanger.Owner() ==> d'.indx == Range(start + offset, Width(d.ndof)) && d'.bound == d'.indx)
  {
    ShiftRange(start, Width(d.ndof), offset);
  }

  lemma NumberedThenShifted(u: Unit, offset: nat, k: nat)
    requires u.SlotsExist() && u.HasDofs() && k < |u.distributeds|
    ensures PreSend(u, 0).Sized() && PreSend(u, 0).SlotsExist() && PreSend(u, 0).HasDofs()
    ensures |Finalized(PreSend(u, 0), offset).distributeds| == |u.distributeds|
    ensures Finalized(PreSend(u, 0), offset).distributeds[k]
         == ShiftedDistributed(NumberedDistributed(u.distributeds[k],
                                                   Start(u, 0, |u.interfaces| + |u.boundaries| + k)), offset)
  {
    PreSendKeepsShape(u, 0);
    var v := PreSend(u, 0);
    assert v.distributeds[k]
           == NumberedDistributed(u.distributeds[k], Start(u, 0, |u.interfaces| + |u.boundaries| + k));
    assert Finalized(v, offset).distributeds == ShiftedDistributeds(v.distributeds, offset);
  }

  /** The index an owner announces. */
  ghost function FirstIndex(m: Machine, e: EdgeRef): nat
    requires Ready(m) && Exists(m, e)
  {
    var u := m[e.rank][e.unit];
    Start(u, UnitOffset(m, e.rank, e.unit), |u.interfaces| + |u.boundaries| + e.edge)
  }

  /** The owner's slot of the send buffer holds its first index when the sends start. */
  lemma OwnerAnnounces(m: Machine, e: EdgeRef)
    requires Ready(m) && Exists(m, e) && Edge(m, e).exchanger.Owner()
    ensures var x := Edge(m, e).exchanger;
            && x.link < |NumberedUnit(m, e.rank, e.unit).send|
            && x.offset < |NumberedUnit(m, e.rank, e.unit).send[x.link]|
            && NumberedUnit(m, e.rank, e.unit).send[x.link][x.offset] == FirstIndex(m, e) as real
  {
    var u := m[e.rank][e.unit];
    NumberedDistributedEdge(m, e);
    SlotsOfShifted(u, UnitOffset(m, e.rank, e.unit));
    var v := PreSend(u, 0);
    var ds := ShiftedDistributeds(v.distributeds, UnitOffset(m, e.rank, e.unit));
    PostedSlot(ds, v.send, |ds|, e.edge);
  }

  /** Numbering and shifting leave every cut edge in its own slot. */
  lemma SlotsOfShifted(u: Unit, offset: nat)
    requires u.SlotsExist() && u.SlotsDistinct() && u.HasDofs()
    ensures PreSend(u, 0).Sized() && PreSend(u, 0).SlotsExist() && PreSend(u, 0).HasDofs()
    ensures var v := PreSend(u, 0);
            var ds := ShiftedDistributeds(v.distributeds, offset);
            && (forall i | 0 <= i < |ds| ::
                ds[i].exchanger.link < |v.send| && ds[i].exchanger.offset < |v.send[ds[i].exchanger.link]|)
            && (forall i | 0 <= i < |ds| && ds[i].exchanger.Owner() :: |ds[i].indx| > 0)
            && (forall a, b | 0 <= a < b < |ds| ::
                  ds[a].exchanger.link != ds[b].exchanger.link || ds[a].exchanger.offset != ds[b].exchanger.offset)
  {
    PreSendKeepsShape(u, 0);
    var ds := ShiftedDistributeds(PreSend(u, 0).distributeds, offset);
    forall i | 0 <= i < |ds|
      ensures ds[i].exchanger == u.distributeds[i].exchanger
    {
    }
  }

  /** A cut edge of a unit after WaitAllReceives. */
  ghost function FinalEdge(m: Machine, w: Wiring, e: EdgeRef): DistributedEdge
    requires Coupled(m, w) && Exists(m, e)
  {
    NumberedDistributedEdge(m, e);
    FollowerHears(m, w, e);
    Received(NumberedUnit(m, e.rank, e.unit).distributeds[e.edge], Arrived(m, w, e.rank, e.unit))
  }

  /** What a follower finds in its slot is the first index of the other side. */
  lemma FollowerHears(m: Machine, w: Wiring, e: EdgeRef)
    requires Coupled(m, w) && Exists(m, e)
    ensures var x := Edge(m, e).exchanger;
            var b := Arrived(m, w, e.rank, e.unit);
            x.Follower() ==>
              && x.link < |b| && x.offset < |b[x.link]|
              && forall f :: Mates(m, w, e, f) ==> b[x.link][x.offset] == FirstIndex(m, f) as real
    ensures var x := Edge(m, e).exchanger;
            x.Follower() ==> Arrived(m, w, e.rank, e.unit)[x.link][x.offset] >= 0.0
  {
    if Edge(m, e).exchanger.Follower() {
      forall f | Mates(m, w, e, f)
        ensures Arrived(m, w, e.rank, e.unit)[Edge(m, e).exchanger.link][Edge(m, e).exchanger.offset]
             == FirstIndex(m, f) as real
      {
        OwnerAnnounces(m, f);
      }
      assert HasMate(m, w, e);
      var f :| Mates(m, w, e, f);
      OwnerAnnounces(m, f);
    }
  }

  ghost function Announced(m: Machine, e: EdgeRef): seq<nat>
    requires Ready(m) && Exists(m, e)
  {
    Range(FirstIndex(m, e), Width(Edge(m, e).ndof))
  }

  lemma OwnerKeeps(m: Machine, w: Wiring, e: EdgeRef)
    requires Coupled(m, w) && Exists(m, e) && Edge(m, e).exchanger.Owner()
    ensures FinalEdge(m, w, e).indx == FinalEdge(m, w, e).bound == Announced(m, e)
  {
    NumberedDistributedEdge(m, e);
  }

  lemma FollowerCopies(m: Machine, w: Wiring, e: EdgeRef, f: EdgeRef)
    requires Coupled(m, w) && Mates(m, w, e, f) && Edge(m, e).exchanger.Follower()
    ensures FinalEdge(m, w, e).indx == FinalEdge(m, w, e).bound == Announced(m, f)
  {
    FollowerHears(m, w, e);
    NumberedDistributedEdge(m, e);
    assert (FirstIndex(m, f) as real).Floor == FirstIndex(m, f);
  }

  /** Both sides of a cut edge end with the same indices, and exactly one of them numbered the edge. */
  lemma CutEdgeAgrees(m: Machine, w: Wiring, e: EdgeRef, f: EdgeRef)
    requires Coupled(m, w) && Mates(m, w, e, f)
    ensures FinalEdge(m, w, e).indx == FinalEdge(m, w, f).indx
    ensures |FinalEdge(m, w, e).indx| == Width(Edge(m, e).ndof)
    ensures FinalEdge(m, w, e).bound == FinalEdge(m, w, e).indx
    ensures Edge(m, e).exchanger.Owner() != Edge(m, f).exchanger.Owner()
    ensures Edge(m, e).exchanger.Owner() <==> Edge(m, f).exchanger.Follower()
  {
    if Edge(m, e).exchanger.Owner() {
      OwnerKeeps(m, w, e);
      FollowerCopies(m, w, f, e);
    } else {
      OwnerKeeps(m, w, f);
      FollowerCopies(m, w, e, f);
    }
  }

  /** One side of a cut edge runs its trace basis counter-clockwise, the other clockwise; the first one numbers it. */
  lemma CutEdgeTurns(m: Machine, w: Wiring, e: EdgeRef, f: EdgeRef)
    requires Mates(m, w, e, f)
    ensures var t, t' := TurnOf(Edge(m, e).exchanger), TurnOf(Edge(m, f).exchanger);
            (t == CounterClockwise && t' == Clockwise) || (t == Clockwise && t' == CounterClockwise)
    ensures TurnOf(Edge(m, e).exchanger) == CounterClockwise <==> Edge(m, e).exchanger.Owner()
  {
  }

  /** f is the side that numbered the cut edge e belongs to. */
  ghost predicate NumberedBy(m: Machine, w: Wiring, e: EdgeRef, f: EdgeRef) {
    && Exists(m, e) && Exists(m, f)
    && Edge(m, f).exchanger.Owner()
    && (if Edge(m, e).exchanger.Owner() then e == f else Mates(m, w, e, f))
  }

  lemma SomeoneNumbered(m: Machine, w: Wiring, e: EdgeRef) returns (f: EdgeRef)
    requires Coupled(m, w) && Exists(m, e)
    ensures NumberedBy(m, w, e, f)
    ensures FinalEdge(m, w, e).indx == Announced(m, f)
  {
    if Edge(m, e).exchanger.Owner() {
      f := e;
      OwnerKeeps(m, w, e);
    } else {
      assert HasMate(m, w, e);
      f :| Mates(m, w, e, f);
      FollowerCopies(m, w, e, f);
    }
  }

  /** The position of a cut edge among all edges of its unit. */
  ghost function Position(m: Machine, e: EdgeRef): nat
    requires Exists(m, e)
  {
    |m[e.rank][e.unit].interfaces| + |m[e.rank][e.unit].boundaries| + e.edge
  }

  lemma AnnouncedIsOwned(m: Machine, f: EdgeRef)
    requires Ready(m) && Exists(m, f) && Edge(m, f).exchanger.Owner()
    ensures Position(m, f) < m[f.rank][f.unit].EdgeCount()
    ensures VectorAt(NumberedUnit(m, f.rank, f.unit), Position(m, f)) == Announced(m, f)
  {
    NumberedVector(m, f.rank, f.unit, Position(m, f));
  }

  lemma OneOwnerPerIndex(m: Machine, a: EdgeRef, b: EdgeRef, k: nat)
    requires Ready(m) && Exists(m, a) && Exists(m, b)
    requires Edge(m, a).exchanger.Owner() && Edge(m, b).exchanger.Owner()
    requires k in Announced(m, a) && k in Announced(m, b)
    ensures a == b
  {
    AnnouncedIsOwned(m, a);
    AnnouncedIsOwned(m, b);
    NoIndexTwice(m, a.rank, a.unit, Position(m, a), b.rank, b.unit, Position(m, b), k);
  }

  lemma SameMateSameEdge(m: Machine, w: Wiring, e: EdgeRef, f: EdgeRef, g: EdgeRef)
    requires Coupled(m, w) && Mates(m, w, e, g) && Mates(m, w, f, g)
    ensures e == f
  {
    assert PortOf(m, e) == PortOf(m, f);
    assert m[e.rank][e.unit].SlotsDistinct();
  }

  /** Two cut-edge sides share an index only if they are the same side or the two sides of one edge. */
  lemma SharedIndexMeansSameEdge(m: Machine, w: Wiring, e: EdgeRef, f: EdgeRef, k: nat)
    requires Coupled(m, w) && Exists(m, e) && Exists(m, f)
    requires k in FinalEdge(m, w, e).indx && k in FinalEdge(m, w, f).indx
    ensures e == f || Mates(m, w, e, f)
  {
    var a := SomeoneNumbered(m, w, e);
    var b := SomeoneNumbered(m, w, f);
    OneOwnerPerIndex(m, a, b, k);
    if !Edge(m, e).exchanger.Owner() && !Edge(m, f).exchanger.Owner() {
      SameMateSameEdge(m, w, e, f, a);
    }
  }

  /** An interface or boundary edge shares no index with any cut edge. */
  lemma LocalAndCutEdgesApart(m: Machine, w: Wiring, r: nat, u: nat, j: nat, e: EdgeRef, k: nat)
    requires Coupled(m, w) && Exists(m, e)
    requires r < |m| && u < |m[r]| && j < |m[r][u].interfaces| + |m[r][u].boundaries|
    requires k in VectorAt(NumberedUnit(m, r, u), j)
    ensures k !in FinalEdge(m, w, e).indx
  {
    var a := SomeoneNumbered(m, w, e);
    AnnouncedIsOwned(m, a);
    if k in FinalEdge(m, w, e).indx {
      NoIndexTwice(m, r, u, j, a.rank, a.unit, Position(m, a), k);
    }
  }
}
