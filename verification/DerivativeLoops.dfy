/** The loops of the serial and of the distributed bathymetry-derivative computation on one discretization. */
module DerivativeLoops {
  import opened Sequences
  import opened Sides
  import opened Derivatives
  import opened DistributedDerivatives

  // ----- face kernels -----

  /**
   The face values of an interface, averaged in place in both sides' matrices.  No entry is read after it was
   overwritten: both matrices end with the mean of the two old values at each physical point.
   */
  method AverageInPlace(hatIn: array2<real>, hatEx: array2<real>)
    requires hatIn != hatEx && hatIn.Length0 == hatEx.Length0 && hatIn.Length1 == hatEx.Length1
    modifies hatIn, hatEx
    ensures forall k, g | 0 <= k < hatIn.Length0 && 0 <= g < hatIn.Length1 ::
              hatIn[k, g] == (old(hatIn[k, g]) + old(hatEx[k, hatIn.Length1 - g - 1])) / 2.0
    ensures forall k, g | 0 <= k < hatIn.Length0 && 0 <= g < hatIn.Length1 ::
              hatEx[k, g] == hatIn[k, hatIn.Length1 - g - 1]
  {
    var terms, ngp := hatIn.Length0, hatIn.Length1;
    for gp := 0 to ngp
      invariant forall k, g | 0 <= k < terms && 0 <= g < ngp ::
                  hatIn[k, g] == if g < gp
                                 then (old(hatIn[k, g]) + old(hatEx[k, ngp - g - 1])) / 2.0
                                 else old(hatIn[k, g])
      invariant forall k, g | 0 <= k < terms && 0 <= g < ngp ::
                  hatEx[k, g] == if g >= ngp - gp then hatIn[k, ngp - g - 1] else old(hatEx[k, g])
    {
      var gpEx := ngp - gp - 1;
      for k := 0 to terms
        invariant forall j, g | 0 <= j < terms && 0 <= g < ngp ::
                    hatIn[j, g] == if g < gp || (g == gp && j < k)
                                   then (old(hatIn[j, g]) + old(hatEx[j, ngp - g - 1])) / 2.0
                                   else old(hatIn[j, g])
        invariant forall j, g | 0 <= j < terms && 0 <= g < ngp ::
                    hatEx[j, g] == if g >= ngp - gp || (g == gpEx && j < k)
                                   then hatIn[j, ngp - g - 1]
                                   else old(hatEx[j, g])
      {
        hatIn[k, gp] := (hatIn[k, gp] + hatEx[k, gpEx]) / 2.0;
        hatEx[k, gpEx] := hatIn[k, gp];
      }
    }
  }

  /** A cut face's values: its own matrix averaged in place with the far side's message. */
  method AverageWithMessage(hat: array2<real>, message: seq<real>)
    requires |message| == hat.Length0 * hat.Length1
    modifies hat
    ensures forall k, g | 0 <= k < hat.Length0 && 0 <= g < hat.Length1 ::
              hat[k, g] == (old(hat[k, g]) + At(message, hat.Length0 * (hat.Length1 - g - 1) + k)) / 2.0
  {
    var terms, ngp := hat.Length0, hat.Length1;
    for gp := 0 to ngp
      invariant forall k, g | 0 <= k < terms && 0 <= g < ngp ::
                  hat[k, g] == if g < gp then (old(hat[k, g]) + At(message, terms * (ngp - g - 1) + k)) / 2.0
                               else old(hat[k, g])
    {
      var gpEx := ngp - gp - 1;
      for k := 0 to terms
        invariant forall j, g | 0 <= j < terms && 0 <= g < ngp ::
                    hat[j, g] == if g < gp || (g == gp && j < k)
                                 then (old(hat[j, g]) + At(message, terms * (ngp - g - 1) + j)) / 2.0
                                 else old(hat[j, g])
      {
        IndexInRange(terms, ngp, gpEx, k);
        hat[k, gp] := (hat[k, gp] + message[terms * gpEx + k]) / 2.0;
      }
    }
  }

  method ToMatrix(rows: Rows, n: nat, ngp: nat) returns (a: array2<real>)
    requires Sized(rows, n, ngp)
    ensures fresh(a) && a.Length0 == n && a.Length1 == ngp
    ensures forall k, g | 0 <= k < n && 0 <= g < ngp :: a[k, g] == rows[k][g]
  {
    a := new real[n, ngp]((k, g) requires 0 <= k < n && 0 <= g < ngp && Sized(rows, n, ngp) => rows[k][g]);
  }

  method FromMatrix(a: array2<real>) returns (rows: Rows)
    ensures Sized(rows, a.Length0, a.Length1)
    ensures forall k, g | 0 <= k < a.Length0 && 0 <= g < a.Length1 :: rows[k][g] == a[k, g]
  {
    rows := [];
    for k := 0 to a.Length0
      invariant Sized(rows, k, a.Length1)
      invariant forall j, g | 0 <= j < k && 0 <= g < a.Length1 :: rows[j][g] == a[j, g]
    {
      var row := seq(a.Length1, g requires 0 <= g < a.Length1 reads a => a[k, g]);
      rows := rows + [row];
    }
  }

  /** Both sides' face values of an interface. */
  method InterfaceValues(own: Rows, far: Rows, n: nat, ngp: nat) returns (hatIn: Rows, hatEx: Rows)
    requires Sized(own, n, ngp) && Sized(far, n, ngp)
    ensures hatIn == Average(own, far, ngp)
    ensures hatEx == Reversed(hatIn, ngp)
  {
    var a := ToMatrix(own, n, ngp);
    var b := ToMatrix(far, n, ngp);
    AverageInPlace(a, b);
    hatIn := FromMatrix(a);
    hatEx := FromMatrix(b);
    forall k | 0 <= k < n
      ensures hatIn[k] == Average(own, far, ngp)[k] && hatEx[k] == Reversed(hatIn, ngp)[k]
    {
      forall g | 0 <= g < ngp
        ensures hatIn[k][g] == Average(own, far, ngp)[k][g]
        ensures hatEx[k][g] == Reversed(hatIn, ngp)[k][g]
      {
        AverageAt(own, far, ngp, k, g);
        ReversedAt(hatIn, ngp, k, g);
        assert hatEx[k][g] == hatIn[k][ngp - g - 1];
      }
    }
  }

  method CutValues(own: Rows, message: seq<real>, n: nat, ngp: nat) returns (hat: Rows)
    requires Sized(own, n, ngp) && |message| == n * ngp
    ensures hat == Average(own, Decode(message, n, ngp), ngp)
  {
    var a := ToMatrix(own, n, ngp);
    AverageWithMessage(a, message);
    hat := FromMatrix(a);
    forall k | 0 <= k < n
      ensures hat[k] == Average(own, Decode(message, n, ngp), ngp)[k]
    {
      forall g | 0 <= g < ngp
        ensures hat[k][g] == Average(own, Decode(message, n, ngp), ngp)[k][g]
      {
        AverageAt(own, Decode(message, n, ngp), ngp, k, g);
        assert Decode(message, n, ngp)[k][ngp - g - 1] == At(message, n * (ngp - g - 1) + k);
      }
    }
  }

  /** The first entries of the encoded trace. */
  ghost predicate EncodedSoFar(trace: Rows, n: nat, message: seq<real>)
    requires n > 0
  {
    forall j | 0 <= j < |message| :: message[j] == At(Row(trace, j % n), j / n)
  }

  lemma PushBackNext(trace: Rows, n: nat, ngp: nat, message: seq<real>, gp: nat, k: nat)
    requires n > 0 && Sized(trace, n, ngp) && gp < ngp && k < n
    requires |message| == n * gp + k && EncodedSoFar(trace, n, message)
    ensures EncodedSoFar(trace, n, message + [trace[k][gp]])
  {
    IndexParts(n, gp, k);
  }

  /** Gauss point by Gauss point, all terms of each, pushed back one by one. */
  method BuildMessage(trace: Rows, n: nat, ngp: nat) returns (message: seq<real>)
    requires n > 0 && Sized(trace, n, ngp)
    ensures message == Encode(trace, n, ngp)
  {
    message := [];
    for gp := 0 to ngp
      invariant |message| == n * gp && EncodedSoFar(trace, n, message)
    {
      for k := 0 to n
        invariant |message| == n * gp + k && EncodedSoFar(trace, n, message)
      {
        PushBackNext(trace, n, ngp, message, gp, k);
        message := message + [trace[k][gp]];
      }
    }
  }

  /** DBDataExchanger::SetToSendBuffer. */
  method SetToSendBuffer(buffer: seq<real>, offset: nat, message: seq<real>) returns (buffer': seq<real>)
    requires offset + |message| <= |buffer|
    ensures buffer' == Overwritten(buffer, offset, message)
  {
    buffer' := buffer;
    for i := 0 to |message|
      invariant |buffer'| == |buffer|
      invariant forall j | 0 <= j < |buffer| ::
                  buffer'[j] == if offset <= j < offset + i then message[j - offset] else buffer[j]
    {
      buffer' := buffer'[offset + i := message[i]];
    }
  }

  /** DBDataExchanger::GetFromReceiveBuffer. */
  method GetFromReceiveBuffer(buffer: seq<real>, offset: nat, n: nat) returns (message: seq<real>)
    requires offset + n <= |buffer|
    ensures message == Slice(buffer, offset, n)
  {
    message := [];
    for i := 0 to n
      invariant |message| == i
      invariant forall j | 0 <= j < i :: message[j] == buffer[offset + j]
    {
      message := message + [buffer[offset + i]];
    }
    forall j | 0 <= j < n
      ensures message[j] == Slice(buffer, offset, n)[j]
    {
      assert Slice(buffer, offset, n)[j] == At(buffer, offset + j);
    }
  }

  /** Adds a face's integral to every row: term by term, direction by direction. */
  method AddFluxes(o: Ops, acc: Rows, s: Side, hat: Rows) returns (acc': Rows)
    requires |acc| == N_DIMENSIONS * |hat|
    ensures acc' == WithFlux(o, acc, s, hat)
  {
    acc' := acc;
    for k := 0 to |hat|
      invariant |acc'| == |acc|
      invariant forall i | 0 <= i < |acc| ::
                  acc'[i] == if i < N_DIMENSIONS * k then Added(acc[i], Flux(o, s, hat, i)) else acc[i]
    {
      for dir := 0 to N_DIMENSIONS
        invariant |acc'| == |acc|
        invariant forall i | 0 <= i < |acc| ::
                    acc'[i] == if i < N_DIMENSIONS * k + dir then Added(acc[i], Flux(o, s, hat, i)) else acc[i]
      {
        var row := N_DIMENSIONS * k + dir;
        IndexParts(N_DIMENSIONS, k, dir);
        var values := o.integrationPhi(s, Product(hat[k], o.normal(s, dir)));
        acc' := acc'[row := Added(acc'[row], values)];
      }
    }
  }

  method VolumeRows(o: Ops, e: nat, inside: Rows) returns (acc: Rows)
    ensures acc == Volume(o, e, inside)
  {
    acc := [];
    for k := 0 to |inside|
      invariant |acc| == N_DIMENSIONS * k
      invariant forall i | 0 <= i < |acc| :: acc[i] == Volume(o, e, inside)[i]
    {
      for dir := 0 to N_DIMENSIONS
        invariant |acc| == N_DIMENSIONS * k + dir
        invariant forall i | 0 <= i < |acc| :: acc[i] == Volume(o, e, inside)[i]
      {
        IndexParts(N_DIMENSIONS, k, dir);
        acc := acc + [Negated(o.integrationDPhi(e, dir, inside[k]))];
      }
    }
  }

  // ----- one discretization -----

  /** What the loops rely on: interfaces join neighbours, and finished rows have the pass's number of terms. */
  ghost predicate Ready(m: Mesh, o: Ops, r: nat, p: Part, rows: map<nat, Rows>) {
    r < PASSES && InterfacesReady(m, o, r, p, rows) && BoundariesReady(r, p, rows) && CutsReady(r, p, rows)
  }

  ghost predicate BoundariesReady(r: nat, p: Part, rows: map<nat, Rows>) {
    forall i | 0 <= i < |p.boundaries| :: SideReady(r, p, rows, p.boundaries[i])
  }

  ghost predicate CutsReady(r: nat, p: Part, rows: map<nat, Rows>) {
    forall i | 0 <= i < |p.dbounds| :: SideReady(r, p, rows, p.dbounds[i].side)
  }

  ghost predicate SideReady(r: nat, p: Part, rows: map<nat, Rows>, s: Side) {
    s.elt in p.elements && RowsSized(r, rows, s.elt)
  }

  /** What the loop over interfaces needs: every interface joins elements whose rows are there. */
  ghost predicate InterfacesReady(m: Mesh, o: Ops, r: nat, p: Part, rows: map<nat, Rows>) {
    o.WellFormed(m) && forall i | 0 <= i < |p.interfaces| :: InterfaceReady(m, r, p, rows, p.interfaces[i])
  }

  ghost predicate InterfaceReady(m: Mesh, r: nat, p: Part, rows: map<nat, Rows>, f: Interface) {
    Joined(m, p, f) && RowsSized(r, rows, f.inner.elt) && RowsSized(r, rows, f.outer.elt)
  }

  /** A part that fits its mesh is ready once the rows of its elements are. */
  lemma FittingPartIsReady(m: Mesh, o: Ops, owner: map<nat, nat>, u: nat, r: nat, p: Part, rows: map<nat, Rows>)
    requires o.WellFormed(m) && r < PASSES && PartFits(m, o, owner, u, p)
    requires forall e | e in p.elements :: RowsSized(r, rows, e)
    ensures Ready(m, o, r, p, rows)
  {
    forall i | 0 <= i < |p.interfaces|
      ensures InterfaceReady(m, r, p, rows, p.interfaces[i])
    {
      InterfaceSidesOwn(p, |p.interfaces|, i);
      assert p.interfaces[i].inner in SidesOf(p) && p.interfaces[i].outer in SidesOf(p);
    }
    forall i | 0 <= i < |p.boundaries|
      ensures SideReady(r, p, rows, p.boundaries[i])
    {
      assert SidesOf(p)[2 * |p.interfaces| + i] == p.boundaries[i];
      assert p.boundaries[i] in SidesOf(p);
    }
    forall i | 0 <= i < |p.dbounds|
      ensures SideReady(r, p, rows, p.dbounds[i].side)
    {
      DBoundIsOwn(p, i);
    }
  }

  ghost predicate RowsSized(r: nat, rows: map<nat, Rows>, e: nat) {
    r > 0 ==> |Get(rows, e)| == Terms(r)
  }

  ghost predicate Joined(m: Mesh, p: Part, f: Interface) {
    && f.inner in m.nb && m.nb[f.inner] == f.outer
    && f.inner.elt in p.elements && f.outer.elt in p.elements
  }

  /** Every element of the part has its rows of this pass under way. */
  ghost predicate Started(r: nat, p: Part, acc: map<nat, Rows>) {
    forall e | e in p.elements :: |Get(acc, e)| == N_DIMENSIONS * Terms(r)
  }

  lemma TraceSized(m: Mesh, o: Ops, r: nat, s: Side, rows: map<nat, Rows>)
    requires o.WellFormed(m) && RowsSized(r, rows, s.elt)
    ensures Sized(Trace(o, r, s, Get(rows, s.elt)), Terms(r), o.ngp(s))
  {
  }

  /** The first k contributions were added, and no element lost a row. */
  ghost predicate ContributionsAdded(o: Ops, r: nat, p: Part, acc0: map<nat, Rows>, acc: map<nat, Rows>,
                                     cs: seq<Contribution>, k: nat)
    requires k <= |cs|
  {
    acc == AddFaces(o, acc0, cs, k) && Started(r, p, acc)
  }

  ghost predicate InterfacesAdded(o: Ops, r: nat, p: Part, rows: map<nat, Rows>, acc0: map<nat, Rows>,
                                  acc: map<nat, Rows>, k: nat)
    requires k <= |p.interfaces|
  {
    acc == InterfacesDone(o, r, p, rows, acc0, k) && Started(r, p, acc)
  }

  /** The rows with the first k interfaces added. */
  function InterfacesDone(o: Ops, r: nat, p: Part, rows: map<nat, Rows>, acc: map<nat, Rows>, k: nat): map<nat, Rows>
    requires k <= |p.interfaces|
  {
    AddFaces(o, acc, InterfaceFaces(o, r, p, rows, k), 2 * k)
  }

  /** Interfaces and then boundaries are the local faces. */
  lemma LocalAdded(o: Ops, r: nat, p: Part, rows: map<nat, Rows>, acc0: map<nat, Rows>, acc1: map<nat, Rows>,
                   acc2: map<nat, Rows>)
    requires InterfacesAdded(o, r, p, rows, acc0, acc1, |p.interfaces|)
    requires ContributionsAdded(o, r, p, acc1, acc2, BoundaryFaces(o, r, p, rows), |p.boundaries|)
    ensures acc2 == AddFaces(o, acc0, LocalFaces(o, r, p, rows), |LocalFaces(o, r, p, rows)|) && Started(r, p, acc2)
  {
    OneAfterOther(o, acc0, acc1, acc2, InterfaceFaces(o, r, p, rows, |p.interfaces|), BoundaryFaces(o, r, p, rows));
  }

  lemma OneAfterOther(o: Ops, acc0: map<nat, Rows>, acc1: map<nat, Rows>, acc2: map<nat, Rows>,
                      a: seq<Contribution>, b: seq<Contribution>)
    requires acc1 == AddFaces(o, acc0, a, |a|) && acc2 == AddFaces(o, acc1, b, |b|)
    ensures acc2 == AddFaces(o, acc0, a + b, |a + b|)
  {
    AddFacesConcat(o, acc0, a, b);
  }

  lemma NoneAdded(o: Ops, r: nat, p: Part, rows: map<nat, Rows>, acc: map<nat, Rows>)
    requires Started(r, p, acc)
    ensures InterfacesAdded(o, r, p, rows, acc, acc, 0)
  {
  }

  lemma RowsStarted(o: Ops, r: nat, p: Part, rows: map<nat, Rows>)
    requires forall e | e in p.elements :: RowsSized(r, rows, e)
    ensures Started(r, p, VolumeOf(o, r, p, rows))
  {
  }

  lemma AddFacesSnoc(o: Ops, acc: map<nat, Rows>, cs: seq<Contribution>, c: Contribution)
    ensures AddFaces(o, acc, cs + [c], |cs| + 1) == AddFace(o, AddFaces(o, acc, cs, |cs|), c)
  {
    FoldPrefix((a: map<nat, Rows>, x: Contribution) => AddFace(o, a, x), acc, cs, [c], |cs|);
  }

  /** One more interface is two more contributions. */
  lemma InterfaceStep(o: Ops, r: nat, p: Part, rows: map<nat, Rows>, acc: map<nat, Rows>, k: nat)
    requires k < |p.interfaces|
    ensures var f := p.interfaces[k];
            var hat := InnerHat(o, r, f, rows);
            InterfacesDone(o, r, p, rows, acc, k + 1)
            == AddFace(o, AddFace(o, InterfacesDone(o, r, p, rows, acc, k), Contribution(f.inner, hat)),
                       Contribution(f.outer, Reversed(hat, o.ngp(f.inner))))
  {
    var f := p.interfaces[k];
    var hat := InnerHat(o, r, f, rows);
    AddTwoFaces(o, acc, InterfaceFaces(o, r, p, rows, k), Contribution(f.inner, hat),
                Contribution(f.outer, Reversed(hat, o.ngp(f.inner))));
  }

  lemma AddTwoFaces(o: Ops, acc: map<nat, Rows>, cs: seq<Contribution>, x: Contribution, y: Contribution)
    ensures AddFaces(o, acc, cs + [x, y], |cs| + 2) == AddFace(o, AddFace(o, AddFaces(o, acc, cs, |cs|), x), y)
  {
    AddFacesSnoc(o, acc, cs, x);
    AddFacesSnoc(o, acc, cs + [x], y);
    assert cs + [x] + [y] == cs + [x, y];
  }

  lemma StepAddFaces(o: Ops, acc: map<nat, Rows>, cs: seq<Contribution>, k: nat)
    requires k < |cs|
    ensures AddFaces(o, acc, cs, k + 1) == AddFace(o, AddFaces(o, acc, cs, k), cs[k])
  {
  }

  ghost predicate AllHaveRoom(o: Ops, send: map<nat, seq<real>>, p: Part) {
    forall i | 0 <= i < |p.dbounds| :: HasRoom(o, send, p.dbounds[i])
  }

  /** Packing cut faces keeps the room for the next one. */
  lemma ReadyToPack(m: Mesh, o: Ops, r: nat, p: Part, d: UnitData, k: nat)
    requires Ready(m, o, r, p, d.rows) && AllHaveRoom(o, d.send, p) && k < |p.dbounds|
    ensures HasRoom(o, PackFaces(o, r, p, d, k).send, p.dbounds[k])
    ensures RowsSized(r, PackFaces(o, r, p, d, k).rows, p.dbounds[k].side.elt)
  {
    PackKeeps(o, r, p, d, k);
    assert SideReady(r, p, d.rows, p.dbounds[k].side) && HasRoom(o, d.send, p.dbounds[k]);
  }

  /** What arrived has room for every cut face, and packing left values on all of them. */
  ghost predicate AllReceived(o: Ops, r: nat, p: Part, hat: map<Side, Rows>, recv: map<nat, seq<real>>) {
    forall i | 0 <= i < |p.dbounds| ::
      HasRoom(o, recv, p.dbounds[i]) && Sized(Get(hat, p.dbounds[i].side), Terms(r), o.ngp(p.dbounds[i].side))
  }

  class Discretization {
    const part: Part
    var rows: map<nat, Rows>
    var acc: map<nat, Rows>
    var hat: map<Side, Rows>
    var send: map<nat, seq<real>>

    ghost function View(): UnitData
      reads this
    {
      UnitData(rows, acc, hat, send)
    }

    constructor (p: Part, d: UnitData)
      ensures part == p && View() == d
    {
      part := p;
      rows, acc, hat, send := d.rows, d.acc, d.hat, d.send;
    }

    /** Evaluates every cut face and writes its message into the neighbour's send buffer. */
    method Pack(m: Mesh, o: Ops, r: nat)
      requires Ready(m, o, r, part, rows) && AllHaveRoom(o, send, part)
      modifies this`hat, this`send
      ensures View() == PackFaces(o, r, part, old(View()), |part.dbounds|)
    {
      ghost var d0 := View();
      for k := 0 to |part.dbounds|
        invariant View() == PackFaces(o, r, part, d0, k)
      {
        PackFaceAt(m, o, r, k, d0);
      }
    }

    method PackFaceAt(m: Mesh, o: Ops, r: nat, k: nat, ghost d0: UnitData)
      requires Ready(m, o, r, part, d0.rows) && AllHaveRoom(o, d0.send, part)
      requires k < |part.dbounds| && View() == PackFaces(o, r, part, d0, k)
      modifies this`hat, this`send
      ensures View() == PackFaces(o, r, part, d0, k + 1)
    {
      ReadyToPack(m, o, r, part, d0, k);
      PackFace(m, o, r, part.dbounds[k]);
    }

    method PackFace(m: Mesh, o: Ops, r: nat, b: DBound)
      requires o.WellFormed(m) && r < PASSES && HasRoom(o, send, b) && RowsSized(r, rows, b.side.elt)
      modifies this`hat, this`send
      ensures View() == WithTrace(o, r, old(View()), b)
    {
      TermsBound(r);
      var trace := Trace(o, r, b.side, Get(rows, b.side.elt));
      var message := BuildMessage(trace, Terms(r), o.ngp(b.side));
      SlotLarge(Terms(r), o.ngp(b.side));
      var buffer := SetToSendBuffer(Buffer(send, b.peer), b.offset, message);
      hat := hat[b.side := trace];
      send := send[b.peer := buffer];
    }

    /** The element loop: every row starts from its interior integral. */
    method StartRows(o: Ops, r: nat)
      modifies this`acc
      ensures acc == VolumeOf(o, r, part, rows)
    {
      acc := map[];
      for k := 0 to |part.elements|
        invariant acc == map e | e in part.elements[..k] :: Volume(o, e, Inside(o, r, e, Get(rows, e)))
      {
        var e := part.elements[k];
        var start := VolumeRows(o, e, Inside(o, r, e, Get(rows, e)));
        assert forall x :: x in part.elements[..k + 1] <==> x in part.elements[..k] || x == e;
        acc := acc[e := start];
      }
      assert part.elements[..|part.elements|] == part.elements;
    }

    method AddSide(o: Ops, r: nat, s: Side, values: Rows)
      requires Started(r, part, acc) && s.elt in part.elements && |values| == Terms(r)
      modifies this`acc
      ensures acc == AddFace(o, old(acc), Contribution(s, values)) && Started(r, part, acc)
    {
      var sum := AddFluxes(o, Get(acc, s.elt), s, values);
      acc := acc[s.elt := sum];
    }

    /** One interface: average, then add to the inner and to the outer element. */
    method AddInterface(m: Mesh, o: Ops, r: nat, f: Interface)
      requires o.WellFormed(m) && Joined(m, part, f) && Started(r, part, acc)
      requires RowsSized(r, rows, f.inner.elt) && RowsSized(r, rows, f.outer.elt)
      modifies this`acc
      ensures var values := InnerHat(o, r, f, rows);
              acc == AddFace(o, AddFace(o, old(acc), Contribution(f.inner, values)),
                             Contribution(f.outer, Reversed(values, o.ngp(f.inner))))
      ensures Started(r, part, acc)
    {
      TraceSized(m, o, r, f.inner, rows);
      TraceSized(m, o, r, f.outer, rows);
      var own := Trace(o, r, f.inner, Get(rows, f.inner.elt));
      var far := Trace(o, r, f.outer, Get(rows, f.outer.elt));
      var hatIn, hatEx := InterfaceValues(own, far, Terms(r), o.ngp(f.inner));
      AddSide(o, r, f.inner, hatIn);
      AddSide(o, r, f.outer, hatEx);
    }

    /** Interface k, on top of the interfaces before it. */
    method AddInterfaceAt(m: Mesh, o: Ops, r: nat, k: nat, ghost acc0: map<nat, Rows>)
      requires InterfacesReady(m, o, r, part, rows) && k < |part.interfaces|
      requires InterfacesAdded(o, r, part, rows, acc0, acc, k)
      modifies this`acc
      ensures InterfacesAdded(o, r, part, rows, acc0, acc, k + 1)
    {
      assert InterfaceReady(m, r, part, rows, part.interfaces[k]);
      InterfaceStep(o, r, part, rows, acc0, k);
      AddInterface(m, o, r, part.interfaces[k]);
    }

    method AddInterfaces(m: Mesh, o: Ops, r: nat)
      requires InterfacesReady(m, o, r, part, rows) && Started(r, part, acc)
      modifies this`acc
      ensures InterfacesAdded(o, r, part, rows, old(acc), acc, |part.interfaces|)
    {
      ghost var acc0 := acc;
      NoneAdded(o, r, part, rows, acc);
      for k := 0 to |part.interfaces|
        invariant InterfacesAdded(o, r, part, rows, acc0, acc, k)
      {
        AddInterfaceAt(m, o, r, k, acc0);
      }
    }

    method AddBoundaryAt(m: Mesh, o: Ops, r: nat, k: nat, ghost acc0: map<nat, Rows>)
      requires o.WellFormed(m) && k < |part.boundaries| && BoundariesReady(r, part, rows)
      requires ContributionsAdded(o, r, part, acc0, acc, BoundaryFaces(o, r, part, rows), k)
      modifies this`acc
      ensures ContributionsAdded(o, r, part, acc0, acc, BoundaryFaces(o, r, part, rows), k + 1)
    {
      var s := part.boundaries[k];
      assert SideReady(r, part, rows, s);
      TraceSized(m, o, r, s, rows);
      StepAddFaces(o, acc0, BoundaryFaces(o, r, part, rows), k);
      AddSide(o, r, s, Trace(o, r, s, Get(rows, s.elt)));
    }

    method AddBoundaries(m: Mesh, o: Ops, r: nat)
      requires o.WellFormed(m) && BoundariesReady(r, part, rows) && Started(r, part, acc)
      modifies this`acc
      ensures ContributionsAdded(o, r, part, old(acc), acc, BoundaryFaces(o, r, part, rows), |part.boundaries|)
    {
      ghost var acc0 := acc;
      for k := 0 to |part.boundaries|
        invariant ContributionsAdded(o, r, part, acc0, acc, BoundaryFaces(o, r, part, rows), k)
      {
        AddBoundaryAt(m, o, r, k, acc0);
      }
    }

    method AddLocalFaces(m: Mesh, o: Ops, r: nat)
      requires Ready(m, o, r, part, rows) && Started(r, part, acc)
      modifies this`acc
      ensures acc == AddFaces(o, old(acc), LocalFaces(o, r, part, rows), |LocalFaces(o, r, part, rows)|)
      ensures Started(r, part, acc)
    {
      ghost var acc0 := acc;
      AddInterfaces(m, o, r);
      ghost var acc1 := acc;
      AddBoundaries(m, o, r);
      LocalAdded(o, r, part, rows, acc0, acc1, acc);
    }

    /** The work that needs no message: elements, interfaces, boundaries. */
    method Local(m: Mesh, o: Ops, r: nat)
      requires Ready(m, o, r, part, rows) && forall e | e in part.elements :: RowsSized(r, rows, e)
      modifies this`acc
      ensures View() == LocalWork(o, r, part, old(View()))
      ensures Started(r, part, acc)
    {
      StartRows(o, r);
      RowsStarted(o, r, part, rows);
      AddLocalFaces(m, o, r);
    }

    /** The mass matrices: the accumulated rows become the finished derivatives. */
    method Finish(o: Ops)
      modifies this`rows
      ensures rows == map e | e in part.elements :: Minv(o, e, Get(acc, e))
    {
      rows := map[];
      for k := 0 to |part.elements|
        invariant rows == map e | e in part.elements[..k] :: Minv(o, e, Get(acc, e))
      {
        var e := part.elements[k];
        assert forall x :: x in part.elements[..k + 1] <==> x in part.elements[..k] || x == e;
        rows := rows[e := Minv(o, e, Get(acc, e))];
      }
      assert part.elements[..|part.elements|] == part.elements;
    }

    /** The serial pass: what the distributed one does when nothing is cut. */
    method SerialPass(m: Mesh, o: Ops, r: nat)
      requires Ready(m, o, r, part, rows) && forall e | e in part.elements :: RowsSized(r, rows, e)
      modifies this`acc, this`rows
      ensures rows == SerialPassRows(o, r, part, old(rows))
    {
      Local(m, o, r);
      Finish(o);
    }

    /** One cut face: average with the received values, then add to its element. */
    method AddCut(o: Ops, r: nat, b: DBound, recv: map<nat, seq<real>>)
      requires r < PASSES && Started(r, part, acc) && b.side.elt in part.elements
      requires HasRoom(o, recv, b) && Sized(Get(hat, b.side), Terms(r), o.ngp(b.side))
      modifies this`acc
      ensures acc == AddFace(o, old(acc), Contribution(b.side, CutHat(o, r, b, View(), recv))) && Started(r, part, acc)
    {
      var ngp := o.ngp(b.side);
      TermsBound(r);
      SlotLarge(Terms(r), ngp);
      var message := GetFromReceiveBuffer(Buffer(recv, b.peer), b.offset, Terms(r) * ngp);
      var values := CutValues(Get(hat, b.side), message, Terms(r), ngp);
      AddSide(o, r, b.side, values);
    }

    /** Cut face k, on top of the cut faces before it.  `d0` is the unit before the first one. */
    method AddCutAt(o: Ops, r: nat, k: nat, recv: map<nat, seq<real>>, ghost d0: UnitData)
      requires r < PASSES && CutsReady(r, part, rows) && k < |part.dbounds| && AllReceived(o, r, part, hat, recv)
      requires View() == d0.(acc := acc)
               && ContributionsAdded(o, r, part, d0.acc, acc, CutFaces(o, r, part, d0, recv), k)
      modifies this`acc
      ensures ContributionsAdded(o, r, part, d0.acc, acc, CutFaces(o, r, part, d0, recv), k + 1)
    {
      assert SideReady(r, part, rows, part.dbounds[k].side);
      StepAddFaces(o, d0.acc, CutFaces(o, r, part, d0, recv), k);
      AddCut(o, r, part.dbounds[k], recv);
    }

    method AddCuts(o: Ops, r: nat, recv: map<nat, seq<real>>)
      requires r < PASSES && CutsReady(r, part, rows) && Started(r, part, acc) && AllReceived(o, r, part, hat, recv)
      modifies this`acc
      ensures ContributionsAdded(o, r, part, old(acc), acc, CutFaces(o, r, part, old(View()), recv), |part.dbounds|)
    {
      ghost var d0 := View();
      for k := 0 to |part.dbounds|
        invariant View() == d0.(acc := acc)
                  && ContributionsAdded(o, r, part, d0.acc, acc, CutFaces(o, r, part, d0, recv), k)
      {
        AddCutAt(o, r, k, recv, d0);
      }
    }

    /** After WaitAllReceives: every cut face averages its kept values with the received ones and adds its integral. */
    method UnpackReceived(m: Mesh, o: Ops, r: nat, recv: map<nat, seq<real>>)
      requires Ready(m, o, r, part, rows) && Started(r, part, acc) && AllReceived(o, r, part, hat, recv)
      modifies this`acc, this`rows
      ensures View() == Unpack(o, r, part, old(View()), recv)
    {
      AddCuts(o, r, recv);
      Finish(o);
    }
  }
}
