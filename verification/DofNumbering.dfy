/**
 The global numbering of the dispersive-correction unknowns over all ranks and sim units,
 as functions on values: local numbering, the two exclusive scans, the shift, and the
 exchange of the first index of every cut edge.  SimUnit.dfy holds the loops.
 */
module DofNumbering {
  import opened Sequences

  /** Unknowns per trace degree of freedom. */
  const N_DIMENSIONS: nat := 2

  /** Where a cut edge's data travels: both units, the rank boundary used, and the slot in its buffers. */
  datatype Exchanger = Exchanger(
    localityIn: nat, submeshIn: nat, localityEx: nat, submeshEx: nat, link: nat, offset: nat)
  {
    /** This side numbers the edge. */
    predicate Owner() {
      localityIn < localityEx || (localityIn == localityEx && submeshIn < submeshEx)
    }

    /** The other side numbers the edge. */
    predicate Follower() {
      localityIn > localityEx || (localityIn == localityEx && submeshIn > submeshEx)
    }
  }

  /** Which way around the element the trace basis of a cut edge runs. */
  datatype Turn = Undefined | CounterClockwise | Clockwise

  /** The flag an edge is created with; a cut edge that joins a unit to itself would have none. */
  function TurnOf(x: Exchanger): Turn {
    if x.localityIn < x.localityEx || (x.localityIn == x.localityEx && x.submeshIn < x.submeshEx) then CounterClockwise
    else if x.localityIn > x.localityEx || (x.localityIn == x.localityEx && x.submeshIn > x.submeshEx) then Clockwise
    else Undefined
  }

  datatype InterfaceEdge = InterfaceEdge(
    ndof: nat, indx: seq<nat>, boundIn: seq<nat>, boundEx: seq<nat>, solOffset: nat)

  datatype BoundaryEdge = BoundaryEdge(ndof: nat, indx: seq<nat>, bound: seq<nat>, solOffset: nat)

  datatype DistributedEdge = DistributedEdge(
    ndof: nat, exchanger: Exchanger, indx: seq<nat>, bound: seq<nat>, solOffset: nat)

  /** One sim unit: its mesh skeleton, and per rank boundary one send and one receive buffer. */
  datatype Unit = Unit(
    interfaces: seq<InterfaceEdge>, boundaries: seq<BoundaryEdge>, distributeds: seq<DistributedEdge>,
    send: seq<seq<real>>, recv: seq<seq<real>>)
  {
    function EdgeCount(): nat {
      |interfaces| + |boundaries| + |distributeds|
    }

    /** Every exchanger points at an existing buffer slot. */
    predicate SlotsExist() {
      && |send| == |recv|
      && forall i | 0 <= i < |distributeds| ::
           var x := distributeds[i].exchanger;
           x.link < |send| && x.offset < |send[x.link]| && x.offset < |recv[x.link]|
    }

    /** Two cut edges never use the same slot. */
    predicate SlotsDistinct() {
      forall i, j | 0 <= i < j < |distributeds| ::
        distributeds[i].exchanger.link != distributeds[j].exchanger.link
        || distributeds[i].exchanger.offset != distributeds[j].exchanger.offset
    }

    /** Trace bases are not empty. */
    predicate HasDofs() {
      forall i | 0 <= i < |distributeds| :: distributeds[i].ndof > 0
    }

    /** Index vectors of owned edges have their full length. */
    predicate Sized() {
      && (forall i | 0 <= i < |interfaces| :: |interfaces[i].indx| == Width(interfaces[i].ndof))
      && (forall i | 0 <= i < |boundaries| :: |boundaries[i].indx| == Width(boundaries[i].ndof))
      && (forall i | 0 <= i < |distributeds| && distributeds[i].exchanger.Owner() ::
            |distributeds[i].indx| == Width(distributeds[i].ndof))
    }
  }

  function Width(ndof: nat): nat {
    ndof * N_DIMENSIONS
  }

  /** The number of unknowns of edge j in visiting order: interfaces, boundaries, cut edges. */
  function WidthAt(u: Unit, j: nat): nat
    requires j < u.EdgeCount()
  {
    var ni, nb := |u.interfaces|, |u.boundaries|;
    if j < ni then Width(u.interfaces[j].ndof)
    else if j < ni + nb then Width(u.boundaries[j - ni].ndof)
    else if u.distributeds[j - ni - nb].exchanger.Owner() then Width(u.distributeds[j - ni - nb].ndof)
    else 0  // the far side owns this edge
  }

  function EdgeWidths(u: Unit): (w: seq<nat>)
    ensures |w| == u.EdgeCount()
  {
    seq(u.EdgeCount(), j requires 0 <= j < u.EdgeCount() => WidthAt(u, j))
  }

  /** The first index of edge j when the unit starts counting at offset. */
  function Start(u: Unit, offset: nat, j: nat): nat
    requires j <= u.EdgeCount()
  {
    offset + Sum(EdgeWidths(u)[..j])
  }

  function NumberedInterface(e: InterfaceEdge, start: nat): InterfaceEdge {
    var v := Range(start, Width(e.ndof));
    e.(indx := v, boundIn := v, boundEx := v)
  }

  function NumberedBoundary(e: BoundaryEdge, start: nat): BoundaryEdge {
    var v := Range(start, Width(e.ndof));
    e.(indx := v, bound := v)
  }

  function NumberedDistributed(e: DistributedEdge, start: nat): DistributedEdge {
    if e.exchanger.Owner() then
      var v := Range(start, Width(e.ndof));
      e.(indx := v, bound := v)
    else e
  }

  /** A unit after it numbered its own edges from offset on. */
  function PreSend(u: Unit, offset: nat): Unit {
    var ni, nb := |u.interfaces|, |u.boundaries|;
    u.(interfaces := seq(ni, i requires 0 <= i < ni => NumberedInterface(u.interfaces[i], Start(u, offset, i))),
       boundaries := seq(nb, i requires 0 <= i < nb => NumberedBoundary(u.boundaries[i], Start(u, offset, ni + i))),
       distributeds := seq(|u.distributeds|, i requires 0 <= i < |u.distributeds| =>
         NumberedDistributed(u.distributeds[i], Start(u, offset, ni + nb + i))))
  }

  function UnitWidth(u: Unit): nat {
    Sum(EdgeWidths(u))
  }

  function Shift(v: seq<nat>, offset: nat): seq<nat> {
    seq(|v|, i requires 0 <= i < |v| => v[i] + offset)
  }

  function ShiftedInterface(e: InterfaceEdge, offset: nat): InterfaceEdge {
    var v := Shift(e.indx, offset);
    e.(indx := v, boundIn := v, boundEx := v)
  }

  function ShiftedBoundary(e: BoundaryEdge, offset: nat): BoundaryEdge {
    var v := Shift(e.indx, offset);
    e.(indx := v, bound := v)
  }

  function ShiftedDistributed(e: DistributedEdge, offset: nat): DistributedEdge {
    if e.exchanger.Owner() then
      var v := Shift(e.indx, offset);
      e.(indx := v, bound := v)
    else e
  }

  function ShiftedDistributeds(ds: seq<DistributedEdge>, offset: nat): (r: seq<DistributedEdge>)
    ensures |r| == |ds|
  {
    seq(|ds|, i requires 0 <= i < |ds| => ShiftedDistributed(ds[i], offset))
  }

  /** The send buffers after the owners among the first k edges wrote their first index. */
  function Posted(ds: seq<DistributedEdge>, send: seq<seq<real>>, k: nat): (r: seq<seq<real>>)
    requires k <= |ds|
    requires forall i | 0 <= i < |ds| ::
               ds[i].exchanger.link < |send| && ds[i].exchanger.offset < |send[ds[i].exchanger.link]|
    requires forall i | 0 <= i < |ds| && ds[i].exchanger.Owner() :: |ds[i].indx| > 0
    ensures |r| == |send| && forall l | 0 <= l < |send| :: |r[l]| == |send[l]|
  {
    if k == 0 then send else
      var before := Posted(ds, send, k - 1);
      var d := ds[k - 1];
      if d.exchanger.Owner() then
        before[d.exchanger.link := before[d.exchanger.link][d.exchanger.offset := d.indx[0] as real]]
      else before
  }

  /** A unit after the shift by its global offset, with its outgoing first indices in the buffers. */
  function Finalized(u: Unit, offset: nat): Unit
    requires u.Sized() && u.SlotsExist() && u.HasDofs()
  {
    var ds := ShiftedDistributeds(u.distributeds, offset);
    u.(interfaces := seq(|u.interfaces|,
                         i requires 0 <= i < |u.interfaces| => ShiftedInterface(u.interfaces[i], offset)),
       boundaries := seq(|u.boundaries|,
                         i requires 0 <= i < |u.boundaries| => ShiftedBoundary(u.boundaries[i], offset)),
       distributeds := ds,
       send := Posted(ds, u.send, |ds|))
  }

  /** A cut edge after the receive: a follower fills in the vector its owner announced. */
  function Received(e: DistributedEdge, recv: seq<seq<real>>): DistributedEdge
    requires AnnouncedTo(e, recv)
  {
    if e.exchanger.Follower() then
      var v := Range(recv[e.exchanger.link][e.exchanger.offset].Floor, Width(e.ndof));
      e.(indx := v, bound := v)
    else e
  }

  /** The index vector of edge j in visiting order; empty for an edge the far side owns. */
  function VectorAt(u: Unit, j: nat): seq<nat>
    requires j < u.EdgeCount()
  {
    var ni, nb := |u.interfaces|, |u.boundaries|;
    if j < ni then u.interfaces[j].indx
    else if j < ni + nb then u.boundaries[j - ni].indx
    else if u.distributeds[j - ni - nb].exchanger.Owner() then u.distributeds[j - ni - nb].indx
    else []
  }

  function OwnedVectors(u: Unit): (r: seq<seq<nat>>)
    ensures |r| == u.EdgeCount()
  {
    seq(u.EdgeCount(), j requires 0 <= j < u.EdgeCount() => VectorAt(u, j))
  }

  /** The index vector of edge j in visiting order, whoever numbered it. */
  function IndicesAt(u: Unit, j: nat): seq<nat>
    requires j < u.EdgeCount()
  {
    var ni, nb := |u.interfaces|, |u.boundaries|;
    if j < ni then u.interfaces[j].indx
    else if j < ni + nb then u.boundaries[j - ni].indx
    else u.distributeds[j - ni - nb].indx
  }

  function AllVectors(u: Unit): (r: seq<seq<nat>>)
    ensures |r| == u.EdgeCount()
  {
    seq(u.EdgeCount(), j requires 0 <= j < u.EdgeCount() => IndicesAt(u, j))
  }

  function SolOffsetAt(u: Unit, j: nat): nat
    requires j < u.EdgeCount()
  {
    var ni, nb := |u.interfaces|, |u.boundaries|;
    if j < ni then u.interfaces[j].solOffset
    else if j < ni + nb then u.boundaries[j - ni].solOffset
    else u.distributeds[j - ni - nb].solOffset
  }

  /** A follower finds a non-negative announcement in its slot. */
  predicate Announced(u: Unit) {
    forall i | 0 <= i < |u.distributeds| :: AnnouncedTo(u.distributeds[i], u.recv)
  }

  predicate AnnouncedTo(e: DistributedEdge, recv: seq<seq<real>>) {
    e.exchanger.Follower() ==>
      && e.exchanger.link < |recv| && e.exchanger.offset < |recv[e.exchanger.link]|
      && recv[e.exchanger.link][e.exchanger.offset] >= 0.0
  }

  function ReceivedUnit(u: Unit): Unit
    requires Announced(u)
  {
    u.(distributeds := seq(|u.distributeds|,
                           i requires 0 <= i < |u.distributeds| => Received(u.distributeds[i], u.recv)))
  }

  /** The place of edge j's vector when the unit's vectors are appended to a list of length base. */
  function PlaceOf(u: Unit, base: nat, j: nat): nat
    requires j <= u.EdgeCount()
  {
    base + |Flatten(AllVectors(u)[..j])|
  }

  /** Every edge notes where its own vector starts in the rank's list. */
  function WithSolOffsets(u: Unit, base: nat): Unit {
    var ni, nb := |u.interfaces|, |u.boundaries|;
    u.(interfaces := seq(ni, i requires 0 <= i < ni => u.interfaces[i].(solOffset := PlaceOf(u, base, i))),
       boundaries := seq(nb, i requires 0 <= i < nb => u.boundaries[i].(solOffset := PlaceOf(u, base, ni + i))),
       distributeds := seq(|u.distributeds|, i requires 0 <= i < |u.distributeds| =>
         u.distributeds[i].(solOffset := PlaceOf(u, base, ni + nb + i))))
  }

  // ----- one unit -----

  lemma PreSendKeepsShape(u: Unit, offset: nat)
    ensures PreSend(u, offset).Sized()
    ensures PreSend(u, offset).EdgeCount() == u.EdgeCount()
    ensures u.SlotsExist() ==> PreSend(u, offset).SlotsExist()
    ensures u.HasDofs() ==> PreSend(u, offset).HasDofs()
  {
    var v := PreSend(u, offset);
    assert forall i | 0 <= i < |v.distributeds| ::
        v.distributeds[i].exchanger == u.distributeds[i].exchanger && v.distributeds[i].ndof == u.distributeds[i].ndof;
    assert v.send == u.send && v.recv == u.recv;
  }

  lemma ShiftRange(lo: nat, n: nat, offset: nat)
    ensures Shift(Range(lo, n), offset) == Range(offset + lo, n)
  {
  }

  lemma LocalEdgeRange(u: Unit, offset: nat, j: nat)
    requires j < u.EdgeCount()
    ensures PreSend(u, offset).EdgeCount() == u.EdgeCount()
    ensures VectorAt(PreSend(u, offset), j) == Range(Start(u, offset, j), WidthAt(u, j))
  {
    var ni, nb := |u.interfaces|, |u.boundaries|;
    if j < ni {
      LocalInterfaceRange(u, offset, j);
    } else if j < ni + nb {
      LocalBoundaryRange(u, offset, j);
    } else {
      LocalCutRange(u, offset, j);
    }
  }

  lemma LocalInterfaceRange(u: Unit, offset: nat, j: nat)
    requires j < |u.interfaces|
    ensures PreSend(u, offset).EdgeCount() == u.EdgeCount()
    ensures VectorAt(PreSend(u, offset), j) == Range(Start(u, offset, j), WidthAt(u, j))
  {
    assert PreSend(u, offset).interfaces[j] == NumberedInterface(u.interfaces[j], Start(u, offset, j));
  }

  lemma LocalBoundaryRange(u: Unit, offset: nat, j: nat)
    requires |u.interfaces| <= j < |u.interfaces| + |u.boundaries|
    ensures PreSend(u, offset).EdgeCount() == u.EdgeCount()
    ensures VectorAt(PreSend(u, offset), j) == Range(Start(u, offset, j), WidthAt(u, j))
  {
    var k := j - |u.interfaces|;
    assert PreSend(u, offset).boundaries[k] == NumberedBoundary(u.boundaries[k], Start(u, offset, j));
  }

  lemma LocalCutRange(u: Unit, offset: nat, j: nat)
    requires |u.interfaces| + |u.boundaries| <= j < u.EdgeCount()
    ensures PreSend(u, offset).EdgeCount() == u.EdgeCount()
    ensures VectorAt(PreSend(u, offset), j) == Range(Start(u, offset, j), WidthAt(u, j))
  {
    var k := j - |u.interfaces| - |u.boundaries|;
    assert PreSend(u, offset).distributeds[k] == NumberedDistributed(u.distributeds[k], Start(u, offset, j));
  }

  lemma ShiftedEdge(u: Unit, offset: nat, j: nat)
    requires u.Sized() && u.SlotsExist() && u.HasDofs() && j < u.EdgeCount()
    ensures Finalized(u, offset).EdgeCount() == u.EdgeCount()
    ensures VectorAt(Finalized(u, offset), j) == Shift(VectorAt(u, j), offset)
  {
  }

  /** Numbering from 0 and shifting gives edge j the range at its own position in the scan. */
  lemma OwnedEdgeRange(u: Unit, offset: nat, j: nat)
    requires u.SlotsExist() && u.HasDofs() && j < u.EdgeCount()
    requires PreSend(u, 0).Sized() && PreSend(u, 0).SlotsExist() && PreSend(u, 0).HasDofs()
    ensures Finalized(PreSend(u, 0), offset).EdgeCount() == u.EdgeCount()
    ensures VectorAt(Finalized(PreSend(u, 0), offset), j) == Range(Start(u, offset, j), WidthAt(u, j))
  {
    LocalEdgeRange(u, 0, j);
    ShiftedEdge(PreSend(u, 0), offset, j);
    ShiftRange(Start(u, 0, j), WidthAt(u, j), offset);
  }

  /** A slot keeps the first index its owner wrote, whatever the other edges write. */
  lemma {:induction false} PostedSlot(ds: seq<DistributedEdge>, send: seq<seq<real>>, k: nat, i: nat)
    requires i < k <= |ds| && ds[i].exchanger.Owner()
    requires forall i | 0 <= i < |ds| ::
               ds[i].exchanger.link < |send| && ds[i].exchanger.offset < |send[ds[i].exchanger.link]|
    requires forall i | 0 <= i < |ds| && ds[i].exchanger.Owner() :: |ds[i].indx| > 0
    requires forall a, b | 0 <= a < b < |ds| ::
               ds[a].exchanger.link != ds[b].exchanger.link || ds[a].exchanger.offset != ds[b].exchanger.offset
    ensures Posted(ds, send, k)[ds[i].exchanger.link][ds[i].exchanger.offset] == ds[i].indx[0] as real
  {
    if i < k - 1 {
      PostedSlot(ds, send, k - 1, i);
    }
  }

  /** Whatever is appended later, the list's slice at an edge's offset is that edge's own vector. */
  lemma SolOffsetFindsVector(u: Unit, list: seq<nat>, later: seq<nat>, j: nat)
    requires j < u.EdgeCount()
    ensures WithSolOffsets(u, |list|).EdgeCount() == u.EdgeCount()
    ensures IndicesAt(WithSolOffsets(u, |list|), j) == IndicesAt(u, j)
    ensures var at := SolOffsetAt(WithSolOffsets(u, |list|), j);
            var full := list + Flatten(AllVectors(u)) + later;
            && at + |IndicesAt(u, j)| <= |full|
            && full[at..at + |IndicesAt(u, j)|] == IndicesAt(u, j)
  {
    FlattenSlice(AllVectors(u), j);
    assert SolOffsetAt(WithSolOffsets(u, |list|), j) == PlaceOf(u, |list|, j);
    var at, n := |Flatten(AllVectors(u)[..j])|, |IndicesAt(u, j)|;
    var middle := Flatten(AllVectors(u));
    assert (list + middle + later)[|list| + at..|list| + at + n] == middle[at..at + n];
  }

  // ----- the whole machine: machine[r][u] is unit u of rank r -----

  type Machine = seq<seq<Unit>>

  ghost predicate Ready(m: Machine) {
    forall r, u | 0 <= r < |m| && 0 <= u < |m[r]| ::
          m[r][u].SlotsExist() && m[r][u].SlotsDistinct() && m[r][u].HasDofs()
  }

  function Widths(m: Machine, r: nat): (w: seq<nat>)
    requires r < |m|
    ensures |w| == |m[r]|
  {
    seq(|m[r]|, u requires 0 <= u < |m[r]| => UnitWidth(m[r][u]))
  }

  function Totals(m: Machine): (t: seq<nat>)
    ensures |t| == |m|
  {
    seq(|m|, r requires 0 <= r < |m| => Sum(Widths(m, r)))
  }

  function GlobalCount(m: Machine): nat {
    Sum(Totals(m))
  }

  /** The scan over the rank's units, started at the rank's place in the scan over ranks. */
  function UnitOffset(m: Machine, r: nat, u: nat): nat
    requires r < |m| && u < |m[r]|
  {
    ExclusiveScan(Widths(m, r))[u] + ExclusiveScan(Totals(m))[r]
  }

  /** Unit u of rank r when its indices are global and its announcements are in the send buffers. */
  ghost function NumberedUnit(m: Machine, r: nat, u: nat): (v: Unit)
    requires Ready(m) && r < |m| && u < |m[r]|
    ensures v.EdgeCount() == m[r][u].EdgeCount()
  {
    PreSendKeepsShape(m[r][u], 0);
    Finalized(PreSend(m[r][u], 0), UnitOffset(m, r, u))
  }

  /** The index vectors of rank r's owned edges, unit after unit. */
  ghost function RankVectors(m: Machine, r: nat): seq<seq<nat>>
    requires Ready(m) && r < |m|
  {
    seq(|m[r]|, u requires 0 <= u < |m[r]| => Flatten(OwnedVectors(NumberedUnit(m, r, u))))
  }

  ghost function MachineVectors(m: Machine): seq<seq<nat>>
    requires Ready(m)
  {
    seq(|m|, r requires 0 <= r < |m| => Flatten(RankVectors(m, r)))
  }

  lemma NumberedVector(m: Machine, r: nat, u: nat, j: nat)
    requires Ready(m) && r < |m| && u < |m[r]| && j < m[r][u].EdgeCount()
    ensures VectorAt(NumberedUnit(m, r, u), j) == Range(Start(m[r][u], UnitOffset(m, r, u), j), WidthAt(m[r][u], j))
  {
    PreSendKeepsShape(m[r][u], 0);
    OwnedEdgeRange(m[r][u], UnitOffset(m, r, u), j);
  }

  /** Every owned edge of a unit gets the range at its own place in the unit's scan. */
  lemma NumberedEdge(m: Machine, r: nat, u: nat, j: nat)
    requires Ready(m) && r < |m| && u < |m[r]| && j < m[r][u].EdgeCount()
    ensures |OwnedVectors(NumberedUnit(m, r, u))| == |EdgeWidths(m[r][u])|
    ensures TiledAt(UnitOffset(m, r, u), EdgeWidths(m[r][u]), OwnedVectors(NumberedUnit(m, r, u)), j)
  {
    NumberedVector(m, r, u, j);
  }

  lemma UnitTiled(m: Machine, r: nat, u: nat)
    requires Ready(m) && r < |m| && u < |m[r]|
    ensures Tiled(UnitOffset(m, r, u), EdgeWidths(m[r][u]), OwnedVectors(NumberedUnit(m, r, u)))
  {
    PreSendKeepsShape(m[r][u], 0);
    var blocks, widths := OwnedVectors(NumberedUnit(m, r, u)), EdgeWidths(m[r][u]);
    forall j | 0 <= j < |blocks|
      ensures |blocks| == |widths| && TiledAt(UnitOffset(m, r, u), widths, blocks, j)
    {
      NumberedEdge(m, r, u, j);
    }
  }

  lemma UnitTiles(m: Machine, r: nat, u: nat)
    requires Ready(m) && r < |m| && u < |m[r]|
    ensures Flatten(OwnedVectors(NumberedUnit(m, r, u))) == Range(UnitOffset(m, r, u), UnitWidth(m[r][u]))
  {
    UnitTiled(m, r, u);
    TilesRange(UnitOffset(m, r, u), EdgeWidths(m[r][u]), OwnedVectors(NumberedUnit(m, r, u)));
  }

  lemma UnitTiledInRank(m: Machine, r: nat, u: nat)
    requires Ready(m) && r < |m| && u < |m[r]|
    ensures TiledAt(Sum(Totals(m)[..r]), Widths(m, r), RankVectors(m, r), u)
  {
    RankVectorIs(m, r, u);
    OffsetInRank(m, r, u);
  }

  lemma RankVectorIs(m: Machine, r: nat, u: nat)
    requires Ready(m) && r < |m| && u < |m[r]|
    ensures |RankVectors(m, r)| == |m[r]| && RankVectors(m, r)[u] == Range(UnitOffset(m, r, u), UnitWidth(m[r][u]))
  {
    UnitTiles(m, r, u);
  }

  lemma OffsetInRank(m: Machine, r: nat, u: nat)
    requires r < |m| && u < |m[r]|
    ensures UnitOffset(m, r, u) == Sum(Totals(m)[..r]) + Sum(Widths(m, r)[..u])
    ensures Widths(m, r)[u] == UnitWidth(m[r][u])
  {
  }

  lemma RankTiled(m: Machine, r: nat)
    requires Ready(m) && r < |m|
    ensures Tiled(Sum(Totals(m)[..r]), Widths(m, r), RankVectors(m, r))
  {
    forall u | 0 <= u < |m[r]|
      ensures TiledAt(Sum(Totals(m)[..r]), Widths(m, r), RankVectors(m, r), u)
    {
      UnitTiledInRank(m, r, u);
    }
  }

  lemma MachineTiled(m: Machine)
    requires Ready(m)
    ensures Tiled(0, Totals(m), MachineVectors(m))
  {
    forall r | 0 <= r < |m|
      ensures TiledAt(0, Totals(m), MachineVectors(m), r)
    {
      RankTiled(m, r);
      TilesRange(Sum(Totals(m)[..r]), Widths(m, r), RankVectors(m, r));
    }
  }

  /** Read in order, the owned index vectors of the whole machine are 0, 1, ..., N-1: a bijection. */
  lemma GlobalNumberingIsBijection(m: Machine)
    requires Ready(m)
    ensures Flatten(MachineVectors(m)) == Range(0, GlobalCount(m))
  {
    MachineTiled(m);
    TilesRange(0, Totals(m), MachineVectors(m));
  }

  /** If an index lies in an edge's vector, it lies in its unit's and its rank's stretch of the numbering. */
  lemma Located(m: Machine, r: nat, u: nat, j: nat, k: nat)
    requires Ready(m) && r < |m| && u < |m[r]| && j < m[r][u].EdgeCount()
    requires k in VectorAt(NumberedUnit(m, r, u), j)
    ensures Start(m[r][u], UnitOffset(m, r, u), j) <= k < Start(m[r][u], UnitOffset(m, r, u), j) + WidthAt(m[r][u], j)
    ensures UnitOffset(m, r, u) <= k < UnitOffset(m, r, u) + UnitWidth(m[r][u])
    ensures Sum(Totals(m)[..r]) <= k < Sum(Totals(m)[..r]) + Totals(m)[r]
  {
    NumberedEdge(m, r, u, j);
    EndOfBlock(EdgeWidths(m[r][u]), j);
    EndOfBlock(Widths(m, r), u);
  }

  /** No index is handed out twice anywhere on the machine. */
  lemma NoIndexTwice(m: Machine, r: nat, u: nat, j: nat, r': nat, u': nat, j': nat, k: nat)
    requires Ready(m)
    requires r < |m| && u < |m[r]| && j < m[r][u].EdgeCount()
    requires r' < |m| && u' < |m[r']| && j' < m[r'][u'].EdgeCount()
    requires k in VectorAt(NumberedUnit(m, r, u), j) && k in VectorAt(NumberedUnit(m, r', u'), j')
    ensures r == r' && u == u' && j == j'
  {
    Located(m, r, u, j, k);
    Located(m, r', u', j', k);
    SamePlace(0, Totals(m), r, r', k);
    SamePlace(Sum(Totals(m)[..r]), Widths(m, r), u, u', k);
    SamePlace(UnitOffset(m, r, u), EdgeWidths(m[r][u]), j, j', k);
  }

  /** Every index below the global count is handed out. */
  lemma EveryIndexOnce(m: Machine, k: nat) returns (r: nat, u: nat, j: nat)
    requires Ready(m) && k < GlobalCount(m)
    ensures r < |m| && u < |m[r]| && j < m[r][u].EdgeCount()
    ensures k in VectorAt(NumberedUnit(m, r, u), j)
  {
    GlobalNumberingIsBijection(m);
    assert Range(0, GlobalCount(m))[k] == k;
    InFlatten(MachineVectors(m), k);
    r :| 0 <= r < |m| && k in MachineVectors(m)[r];
    InFlatten(RankVectors(m, r), k);
    u :| 0 <= u < |m[r]| && k in RankVectors(m, r)[u];
    var owned := OwnedVectors(NumberedUnit(m, r, u));
    InFlatten(owned, k);
    j :| 0 <= j < |owned| && k in owned[j];
    PreSendKeepsShape(m[r][u], 0);
  }
}
