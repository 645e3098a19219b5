/** The loops that number one sim unit, and one rank's pass over its sim units. */
module SimUnits {
  import opened Sequences
  import opened DofNumbering

  lemma StartStep(u: Unit, offset: nat, j: nat)
    requires j < u.EdgeCount()
    ensures Start(u, offset, j + 1) == Start(u, offset, j) + WidthAt(u, j)
  {
    SumStep(EdgeWidths(u), j);
  }

  /** One more edge in the list. */
  lemma VectorNext(u: Unit, j: nat)
    requires j < u.EdgeCount()
    ensures Flatten(AllVectors(u)[..j + 1]) == Flatten(AllVectors(u)[..j]) + IndicesAt(u, j)
  {
    FlattenStep(AllVectors(u), j);
  }

  /** The list base with the vectors of the first j edges behind it. */
  function ListUpto(u: Unit, base: seq<nat>, j: nat): seq<nat>
    requires j <= u.EdgeCount()
  {
    base + Flatten(AllVectors(u)[..j])
  }

  lemma InterfacePlaceStep(u: Unit, base: nat, k: nat)
    requires k < |u.interfaces|
    ensures |WithSolOffsets(u, base).interfaces| == |u.interfaces|
    ensures WithSolOffsets(u, base).interfaces[k]
         == u.interfaces[k].(solOffset := base + |Flatten(AllVectors(u)[..k])|)
    ensures Flatten(AllVectors(u)[..k + 1]) == Flatten(AllVectors(u)[..k]) + u.interfaces[k].indx
  {
    VectorNext(u, k);
  }

  lemma BoundaryPlaceStep(u: Unit, base: nat, k: nat)
    requires k < |u.boundaries|
    ensures var j := |u.interfaces| + k;
            && |WithSolOffsets(u, base).boundaries| == |u.boundaries|
            && WithSolOffsets(u, base).boundaries[k]
               == u.boundaries[k].(solOffset := base + |Flatten(AllVectors(u)[..j])|)
            && Flatten(AllVectors(u)[..j + 1]) == Flatten(AllVectors(u)[..j]) + u.boundaries[k].indx
  {
    VectorNext(u, |u.interfaces| + k);
  }

  lemma DistributedPlaceStep(u: Unit, base: nat, k: nat)
    requires k < |u.distributeds|
    ensures var j := |u.interfaces| + |u.boundaries| + k;
            && |WithSolOffsets(u, base).distributeds| == |u.distributeds|
            && WithSolOffsets(u, base).distributeds[k]
               == u.distributeds[k].(solOffset := base + |Flatten(AllVectors(u)[..j])|)
            && Flatten(AllVectors(u)[..j + 1]) == Flatten(AllVectors(u)[..j]) + u.distributeds[k].indx
  {
    VectorNext(u, |u.interfaces| + |u.boundaries| + k);
  }

  lemma BoundaryStep(u: Unit, offset: nat, k: nat)
    requires k < |u.boundaries|
    ensures var start := Start(u, offset, |u.interfaces| + k);
            var indx := Range(start, u.boundaries[k].ndof * N_DIMENSIONS);
            && |PreSend(u, offset).boundaries| == |u.boundaries|
            && PreSend(u, offset).boundaries[k] == u.boundaries[k].(indx := indx, bound := indx)
            && Start(u, offset, |u.interfaces| + k + 1) == start + u.boundaries[k].ndof * N_DIMENSIONS
  {
    StartStep(u, offset, |u.interfaces| + k);
  }

  lemma DistributedStep(u: Unit, offset: nat, k: nat)
    requires k < |u.distributeds|
    ensures var base := |u.interfaces| + |u.boundaries| + k;
            && |PreSend(u, offset).distributeds| == |u.distributeds|
            && PreSend(u, offset).distributeds[k] == NumberedDistributed(u.distributeds[k], Start(u, offset, base))
            && Start(u, offset, base + 1)
               == Start(u, offset, base)
                + (if u.distributeds[k].exchanger.Owner() then u.distributeds[k].ndof * N_DIMENSIONS else 0)
  {
    StartStep(u, offset, |u.interfaces| + |u.boundaries| + k);
  }

  /** Sets n consecutive indices. */
  method ConsecutiveIndices(n: nat, offset: nat) returns (indx: seq<nat>)
    ensures indx == Range(offset, n)
  {
    indx := [];
    for i := 0 to n
      invariant indx == Range(offset, i)
    {
      indx := indx + [i + offset];
    }
  }

  method ShiftIndices(v: seq<nat>, n: nat, offset: nat) returns (indx: seq<nat>)
    requires n == |v|
    ensures indx == Shift(v, offset)
  {
    indx := v;
    for i := 0 to n
      invariant |indx| == |v|
      invariant forall k | 0 <= k < |v| :: indx[k] == if k < i then v[k] + offset else v[k]
    {
      indx := indx[i := indx[i] + offset];
    }
  }

  class SimUnit {
    var interfaces: seq<InterfaceEdge>
    var boundaries: seq<BoundaryEdge>
    var distributeds: seq<DistributedEdge>
    var send: seq<seq<real>>
    var recv: seq<seq<real>>

    ghost function View(): Unit
      reads this
    {
      Unit(interfaces, boundaries, distributeds, send, recv)
    }

    // Each loop below works on one of the three edge lists; u0 is the unit as it was when the pass began.

    method NumberInterfaces(offset: nat, ghost u0: Unit) returns (next: nat)
      requires u0 == View()
      modifies this`interfaces
      ensures interfaces == PreSend(u0, offset).interfaces
      ensures next == Start(u0, offset, |interfaces|)
    {
      next := offset;
      ghost var target := PreSend(u0, offset).interfaces;
      for k := 0 to |interfaces|
        invariant next == Start(u0, offset, k)
        invariant Replaced(interfaces, u0.interfaces, target, k)
      {
        ghost var was := interfaces;
        var e := interfaces[k];
        var indx := ConsecutiveIndices(e.ndof * N_DIMENSIONS, next);
        interfaces := interfaces[k := e.(indx := indx, boundIn := indx, boundEx := indx)];
        next := next + e.ndof * N_DIMENSIONS;
        StartStep(u0, offset, k);
        ReplacedNext(was, u0.interfaces, target, k, interfaces);
      }
      AllReplaced(interfaces, u0.interfaces, target);
    }

    method NumberBoundaries(offset: nat, ghost u0: Unit, ghost first: nat) returns (next: nat)
      requires boundaries == u0.boundaries
      requires offset == Start(u0, first, |u0.interfaces|)
      modifies this`boundaries
      ensures boundaries == PreSend(u0, first).boundaries
      ensures next == Start(u0, first, |u0.interfaces| + |boundaries|)
    {
      next := offset;
      ghost var ni := |u0.interfaces|;
      ghost var target := PreSend(u0, first).boundaries;
      for k := 0 to |boundaries|
        invariant next == Start(u0, first, ni + k)
        invariant Replaced(boundaries, u0.boundaries, target, k)
      {
        next := NumberBoundary(k, next, u0, first);
      }
      AllReplaced(boundaries, u0.boundaries, target);
    }

    method NumberBoundary(k: nat, offset: nat, ghost u0: Unit, ghost first: nat) returns (next: nat)
      requires Replaced(boundaries, u0.boundaries, PreSend(u0, first).boundaries, k) && k < |boundaries|
      requires offset == Start(u0, first, |u0.interfaces| + k)
      modifies this`boundaries
      ensures Replaced(boundaries, u0.boundaries, PreSend(u0, first).boundaries, k + 1)
      ensures next == Start(u0, first, |u0.interfaces| + k + 1)
    {
      ghost var was := boundaries;
      var e := boundaries[k];
      var indx := ConsecutiveIndices(e.ndof * N_DIMENSIONS, offset);
      boundaries := boundaries[k := e.(indx := indx, bound := indx)];
      next := offset + e.ndof * N_DIMENSIONS;
      BoundaryStep(u0, first, k);
      ReplacedNext(was, u0.boundaries, PreSend(u0, first).boundaries, k, boundaries);
    }

    method NumberDistributeds(offset: nat, ghost u0: Unit, ghost first: nat) returns (next: nat)
      requires distributeds == u0.distributeds
      requires offset == Start(u0, first, |u0.interfaces| + |u0.boundaries|)
      modifies this`distributeds
      ensures distributeds == PreSend(u0, first).distributeds
      ensures next == Start(u0, first, u0.EdgeCount())
    {
      next := offset;
      ghost var base := |u0.interfaces| + |u0.boundaries|;
      ghost var target := PreSend(u0, first).distributeds;
      for k := 0 to |distributeds|
        invariant next == Start(u0, first, base + k)
        invariant Replaced(distributeds, u0.distributeds, target, k)
      {
        ghost var was := distributeds;
        var e := distributeds[k];
        if e.exchanger.Owner() {
          var indx := ConsecutiveIndices(e.ndof * N_DIMENSIONS, next);
          distributeds := distributeds[k := e.(indx := indx, bound := indx)];
          next := next + e.ndof * N_DIMENSIONS;
        }
        DistributedStep(u0, first, k);
        ReplacedNext(was, u0.distributeds, target, k, distributeds);
      }
      AllReplaced(distributeds, u0.distributeds, target);
    }

    /** Numbers interfaces, boundaries and owned cut edges in that order, and returns the bumped offset. */
    method ParallelPreSend(offset: nat) returns (next: nat)
      modifies this
      ensures View() == PreSend(old(View()), offset)
      ensures next == offset + UnitWidth(old(View()))
    {
      ghost var u0 := View();
      next := NumberInterfaces(offset, u0);
      next := NumberBoundaries(next, u0, offset);
      next := NumberDistributeds(next, u0, offset);
      assert EdgeWidths(u0)[..u0.EdgeCount()] == EdgeWidths(u0);
    }

    method ShiftInterfaces(offset: nat, ghost u0: Unit)
      requires u0 == View() && u0.Sized()
      modifies this`interfaces
      ensures |interfaces| == |u0.interfaces|
      ensures forall i | 0 <= i < |interfaces| :: interfaces[i] == ShiftedInterface(u0.interfaces[i], offset)
    {
      for k := 0 to |interfaces|
        invariant |interfaces| == |u0.interfaces|
        invariant forall i | 0 <= i < k :: interfaces[i] == ShiftedInterface(u0.interfaces[i], offset)
        invariant forall i | k <= i < |interfaces| :: interfaces[i] == u0.interfaces[i]
      {
        var e := interfaces[k];
        var indx := ShiftIndices(e.indx, e.ndof * N_DIMENSIONS, offset);
        interfaces := interfaces[k := e.(indx := indx, boundIn := indx, boundEx := indx)];
      }
    }

    method ShiftBoundaries(offset: nat, ghost u0: Unit)
      requires boundaries == u0.boundaries && u0.Sized()
      modifies this`boundaries
      ensures |boundaries| == |u0.boundaries|
      ensures forall i | 0 <= i < |boundaries| :: boundaries[i] == ShiftedBoundary(u0.boundaries[i], offset)
    {
      for k := 0 to |boundaries|
        invariant |boundaries| == |u0.boundaries|
        invariant forall i | 0 <= i < k :: boundaries[i] == ShiftedBoundary(u0.boundaries[i], offset)
        invariant forall i | k <= i < |boundaries| :: boundaries[i] == u0.boundaries[i]
      {
        var e := boundaries[k];
        var indx := ShiftIndices(e.indx, e.ndof * N_DIMENSIONS, offset);
        boundaries := boundaries[k := e.(indx := indx, bound := indx)];
      }
    }

    /** Owners shift and put their first index into their slot of the send buffer, edge by edge. */
    method ShiftDistributeds(offset: nat, ghost u0: Unit)
      requires distributeds == u0.distributeds && send == u0.send
      requires u0.Sized() && u0.SlotsExist() && u0.HasDofs()
      modifies this`distributeds, this`send
      ensures distributeds == ShiftedDistributeds(u0.distributeds, offset)
      ensures send == Posted(distributeds, u0.send, |distributeds|)
    {
      ghost var ds := ShiftedDistributeds(u0.distributeds, offset);
      for k := 0 to |distributeds|
        invariant |distributeds| == |ds|
        invariant forall i | 0 <= i < k :: distributeds[i] == ds[i]
        invariant forall i | k <= i < |ds| :: distributeds[i] == u0.distributeds[i]
        invariant send == Posted(ds, u0.send, k)
      {
        assert distributeds[k] == u0.distributeds[k];
        ShiftEdge(k, offset);
      }
    }

    /** One cut edge: an owner shifts its indices and puts the first one into its slot. */
    method ShiftEdge(k: nat, offset: nat)
      requires k < |distributeds|
      requires var e := distributeds[k];
               && e.exchanger.link < |send| && e.exchanger.offset < |send[e.exchanger.link]|
               && (e.exchanger.Owner() ==> |e.indx| == e.ndof * N_DIMENSIONS && |e.indx| > 0)
      modifies this`distributeds, this`send
      ensures distributeds == old(distributeds)[k := ShiftedDistributed(old(distributeds[k]), offset)]
      ensures var e := distributeds[k];
              && (e.exchanger.Owner() ==> |e.indx| > 0)
              && var l, x := e.exchanger.link, e.exchanger.offset;
                 send == if e.exchanger.Owner() then old(send)[l := old(send)[l][x := e.indx[0] as real]] else old(send)
    {
      var e := distributeds[k];
      if e.exchanger.Owner() {
        var indx := ShiftIndices(e.indx, e.ndof * N_DIMENSIONS, offset);
        distributeds := distributeds[k := e.(indx := indx, bound := indx)];
        var message := indx[0] as real;
        send := send[e.exchanger.link := send[e.exchanger.link][e.exchanger.offset := message]];
      }
    }

    /** Makes the unit's indices global and announces every owned cut edge's first index. */
    method FinalizePreSend(offset: nat)
      requires View().Sized() && View().SlotsExist() && View().HasDofs()
      modifies this
      ensures View() == Finalized(old(View()), offset)
    {
      ghost var u0 := View();
      ShiftInterfaces(offset, u0);
      ShiftBoundaries(offset, u0);
      ShiftDistributeds(offset, u0);
      assert interfaces == Finalized(u0, offset).interfaces;
      assert boundaries == Finalized(u0, offset).boundaries;
    }

    method CollectInterfaces(list: seq<nat>, ghost u1: Unit) returns (list': seq<nat>)
      requires interfaces == u1.interfaces
      modifies this`interfaces
      ensures interfaces == WithSolOffsets(u1, |list|).interfaces
      ensures list' == list + Flatten(AllVectors(u1)[..|interfaces|])
    {
      list' := list;
      ghost var target := WithSolOffsets(u1, |list|).interfaces;
      for k := 0 to |interfaces|
        invariant list' == list + Flatten(AllVectors(u1)[..k])
        invariant Replaced(interfaces, u1.interfaces, target, k)
      {
        ghost var was := interfaces;
        var e := interfaces[k];
        interfaces := interfaces[k := e.(solOffset := |list'|)];
        list' := list' + e.indx;
        InterfacePlaceStep(u1, |list|, k);
        ReplacedNext(was, u1.interfaces, target, k, interfaces);
      }
      AllReplaced(interfaces, u1.interfaces, target);
    }

    /** Boundary edge k learns its place and joins the list. */
    method CollectBoundary(k: nat, list: seq<nat>, ghost u1: Unit, ghost base: seq<nat>) returns (list': seq<nat>)
      requires k < |boundaries| == |u1.boundaries| && boundaries[k] == u1.boundaries[k]
      requires list == ListUpto(u1, base, |u1.interfaces| + k)
      modifies this`boundaries
      ensures |WithSolOffsets(u1, |base|).boundaries| == |u1.boundaries|
      ensures boundaries == old(boundaries)[k := WithSolOffsets(u1, |base|).boundaries[k]]
      ensures list' == ListUpto(u1, base, |u1.interfaces| + k + 1)
    {
      var e := boundaries[k];
      boundaries := boundaries[k := e.(solOffset := |list|)];
      list' := list + e.indx;
      BoundaryPlaceStep(u1, |base|, k);
    }

    method CollectBoundaries(list: seq<nat>, ghost u1: Unit, ghost base: seq<nat>) returns (list': seq<nat>)
      requires boundaries == u1.boundaries
      requires list == ListUpto(u1, base, |u1.interfaces|)
      modifies this`boundaries
      ensures boundaries == WithSolOffsets(u1, |base|).boundaries
      ensures list' == ListUpto(u1, base, |u1.interfaces| + |u1.boundaries|)
    {
      ghost var first := |u1.interfaces|;
      ghost var target := WithSolOffsets(u1, |base|).boundaries;
      list' := list;
      for k := 0 to |boundaries|
        invariant list' == ListUpto(u1, base, first + k)
        invariant Replaced(boundaries, u1.boundaries, target, k)
      {
        ghost var was := boundaries;
        list' := CollectBoundary(k, list', u1, base);
        ReplacedNext(was, u1.boundaries, target, k, boundaries);
      }
      AllReplaced(boundaries, u1.boundaries, target);
    }

    /** Cut edge k takes over the announced indices if it is a follower, then joins the list. */
    method CollectDistributed(k: nat, list: seq<nat>, ghost u1: Unit, ghost base: seq<nat>) returns (list': seq<nat>)
      requires k < |distributeds| == |u1.distributeds|
      requires AnnouncedTo(distributeds[k], recv) && u1.distributeds[k] == Received(distributeds[k], recv)
      requires list == ListUpto(u1, base, |u1.interfaces| + |u1.boundaries| + k)
      modifies this`distributeds
      ensures |WithSolOffsets(u1, |base|).distributeds| == |u1.distributeds|
      ensures distributeds == old(distributeds)[k := WithSolOffsets(u1, |base|).distributeds[k]]
      ensures list' == ListUpto(u1, base, |u1.interfaces| + |u1.boundaries| + k + 1)
    {
      var e := ReceiveIndices(distributeds[k]);
      distributeds := distributeds[k := e.(solOffset := |list|)];
      list' := list + e.indx;
      DistributedPlaceStep(u1, |base|, k);
    }

    method CollectDistributeds(list: seq<nat>, ghost u1: Unit, ghost base: seq<nat>) returns (list': seq<nat>)
      requires |distributeds| == |u1.distributeds|
      requires forall i | 0 <= i < |distributeds| ::
                 AnnouncedTo(distributeds[i], recv) && u1.distributeds[i] == Received(distributeds[i], recv)
      requires list == ListUpto(u1, base, |u1.interfaces| + |u1.boundaries|)
      modifies this`distributeds
      ensures distributeds == WithSolOffsets(u1, |base|).distributeds
      ensures list' == ListUpto(u1, base, |u1.interfaces| + |u1.boundaries| + |u1.distributeds|)
    {
      ghost var ds := distributeds;
      ghost var first := |u1.interfaces| + |u1.boundaries|;
      ghost var target := WithSolOffsets(u1, |base|).distributeds;
      list' := list;
      for k := 0 to |distributeds|
        invariant list' == ListUpto(u1, base, first + k)
        invariant Replaced(distributeds, ds, target, k)
      {
        ghost var was := distributeds;
        list' := CollectDistributed(k, list', u1, base);
        ReplacedNext(was, ds, target, k, distributeds);
      }
      AllReplaced(distributeds, ds, target);
    }

    /** A follower reads the first index from its slot of the receive buffer and counts on from there. */
    method ReceiveIndices(e: DistributedEdge) returns (e': DistributedEdge)
      requires AnnouncedTo(e, recv)
      ensures e' == Received(e, recv)
    {
      e' := e;
      if e.exchanger.Follower() {
        var message := recv[e.exchanger.link][e.exchanger.offset];
        var indx := ConsecutiveIndices(e.ndof * N_DIMENSIONS, message.Floor);
        e' := e.(indx := indx, bound := indx);
      }
    }

    /** Completes the cut edges and appends all of the unit's index vectors to the rank's list. */
    method PostReceive(list: seq<nat>) returns (list': seq<nat>)
      requires Announced(View())
      modifies this
      ensures View() == WithSolOffsets(ReceivedUnit(old(View())), |list|)
      ensures list' == list + Flatten(AllVectors(ReceivedUnit(old(View()))))
    {
      ghost var u1 := ReceivedUnit(View());
      list' := CollectInterfaces(list, u1);
      list' := CollectBoundaries(list', u1, list);
      list' := CollectDistributeds(list', u1, list);
      assert AllVectors(u1)[..u1.EdgeCount()] == AllVectors(u1);
    }
  }
}
