/**
 The distributed derivative computation as an instance of the halo protocol: what a sim unit packs, computes
 locally and unpacks in pass r, and the proof that every interleaving gives every element the derivatives of
 the undivided mesh.
 */
module DistributedDerivatives {
  import opened Sequences
  import opened Sides
  import opened Derivatives
  import opened HaloProtocol

  /**
   rows: finished derivatives of the previous pass; acc: this pass; hat: values on cut faces; send: one buffer per
   neighbour.
   */
  datatype UnitData = UnitData(rows: map<nat, Rows>, acc: map<nat, Rows>, hat: map<Side, Rows>,
                               send: map<nat, seq<real>>)

  // ----- messages -----

  /** Gauss point after Gauss point, all terms of each. */
  function Encode(trace: Rows, n: nat, ngp: nat): (msg: seq<real>)
    requires n > 0
    ensures |msg| == n * ngp
  {
    seq(n * ngp, j requires 0 <= j < n * ngp => At(Row(trace, j % n), j / n))
  }

  function Decode(msg: seq<real>, n: nat, ngp: nat): (v: Rows)
    ensures Sized(v, n, ngp)
  {
    seq(n, k requires 0 <= k < n => seq(ngp, gp requires 0 <= gp < ngp => At(msg, n * gp + k)))
  }

  function Buffer(send: map<nat, seq<real>>, v: nat): seq<real> {
    if v in send then send[v] else []
  }

  /** std::copy into a buffer at an offset. */
  function Overwritten(buf: seq<real>, offset: nat, msg: seq<real>): (b: seq<real>)
    ensures |b| == |buf|
  {
    seq(|buf|, i requires 0 <= i < |buf| => if offset <= i < offset + |msg| then msg[i - offset] else buf[i])
  }

  function Slice(buf: seq<real>, offset: nat, n: nat): (msg: seq<real>)
    ensures |msg| == n
  {
    seq(n, i requires 0 <= i < n => At(buf, offset + i))
  }

  lemma TermsPositive(r: nat)
    ensures Terms(r) > 0
  {
  }

  lemma IndexParts(n: nat, gp: nat, k: nat)
    requires k < n
    ensures (n * gp + k) / n == gp && (n * gp + k) % n == k
  {
    var q := (n * gp + k) / n;
    assert n * gp + k == n * q + (n * gp + k) % n;
    assert n * (gp - q) == (n * gp + k) % n - k;
    if gp != q {
      MultipleTooFar(n, gp - q);
    }
  }

  lemma MultipleTooFar(n: int, d: int)
    requires d != 0 && n > 0
    ensures n * d >= n || n * d <= -n
  {
    if d > 0 {
      assert n * (d - 1) >= 0;
    } else {
      assert n * (-d - 1) >= 0;
    }
  }

  lemma IndexInRange(n: nat, ngp: nat, gp: nat, k: nat)
    requires k < n && gp < ngp
    ensures n * gp + k < n * ngp
  {
    assert n * (gp + 1) <= n * ngp;
  }

  /** Unpacking what was packed gives the trace back. */
  lemma DecodeEncode(trace: Rows, n: nat, ngp: nat)
    requires n > 0 && Sized(trace, n, ngp)
    ensures Decode(Encode(trace, n, ngp), n, ngp) == trace
  {
    var v := Decode(Encode(trace, n, ngp), n, ngp);
    forall k | 0 <= k < n
      ensures v[k] == trace[k]
    {
      forall gp | 0 <= gp < ngp
        ensures v[k][gp] == trace[k][gp]
      {
        IndexParts(n, gp, k);
        IndexInRange(n, ngp, gp, k);
      }
    }
  }

  // ----- one unit's three steps of pass r -----

  function WithTrace(o: Ops, r: nat, d: UnitData, b: DBound): UnitData {
    var trace := Trace(o, r, b.side, Get(d.rows, b.side.elt));
    TermsPositive(r);
    d.(hat := d.hat[b.side := trace],
       send := d.send[b.peer := Overwritten(Buffer(d.send, b.peer), b.offset, Encode(trace, Terms(r), o.ngp(b.side)))])
  }

  /** After the first k cut faces were evaluated and written to the send buffers. */
  function PackFaces(o: Ops, r: nat, p: Part, d: UnitData, k: nat): UnitData
    requires k <= |p.dbounds|
  {
    if k == 0 then d else WithTrace(o, r, PackFaces(o, r, p, d, k - 1), p.dbounds[k - 1])
  }

  function VolumeOf(o: Ops, r: nat, p: Part, rows: map<nat, Rows>): map<nat, Rows> {
    map e | e in p.elements :: Volume(o, e, Inside(o, r, e, Get(rows, e)))
  }

  function InnerHat(o: Ops, r: nat, f: Interface, rows: map<nat, Rows>): Rows {
    Average(Trace(o, r, f.inner, Get(rows, f.inner.elt)), Trace(o, r, f.outer, Get(rows, f.outer.elt)), o.ngp(f.inner))
  }

  /** Each interface adds to its inner element and then, with the points reversed, to its outer one. */
  function InterfaceFaces(o: Ops, r: nat, p: Part, rows: map<nat, Rows>, k: nat): (cs: seq<Contribution>)
    requires k <= |p.interfaces|
    ensures |cs| == 2 * k
  {
    if k == 0 then [] else
      var f := p.interfaces[k - 1];
      InterfaceFaces(o, r, p, rows, k - 1)
      + [Contribution(f.inner, InnerHat(o, r, f, rows)),
         Contribution(f.outer, Reversed(InnerHat(o, r, f, rows), o.ngp(f.inner)))]
  }

  function BoundaryFaces(o: Ops, r: nat, p: Part, rows: map<nat, Rows>): (cs: seq<Contribution>)
    ensures |cs| == |p.boundaries|
  {
    seq(|p.boundaries|, i requires 0 <= i < |p.boundaries| =>
      Contribution(p.boundaries[i], Trace(o, r, p.boundaries[i], Get(rows, p.boundaries[i].elt))))
  }

  function LocalFaces(o: Ops, r: nat, p: Part, rows: map<nat, Rows>): seq<Contribution> {
    InterfaceFaces(o, r, p, rows, |p.interfaces|) + BoundaryFaces(o, r, p, rows)
  }

  /** The work between SendAll and WaitAllReceives. */
  function LocalWork(o: Ops, r: nat, p: Part, d: UnitData): UnitData {
    var cs := LocalFaces(o, r, p, d.rows);
    d.(acc := AddFaces(o, VolumeOf(o, r, p, d.rows), cs, |cs|))
  }

  /** The mean of the values a cut face kept from packing and the ones its neighbour sent. */
  function CutHat(o: Ops, r: nat, b: DBound, d: UnitData, ms: map<nat, seq<real>>): Rows {
    var n := Terms(r) * o.ngp(b.side);
    Average(Get(d.hat, b.side), Decode(Slice(Buffer(ms, b.peer), b.offset, n), Terms(r), o.ngp(b.side)), o.ngp(b.side))
  }

  function CutFaces(o: Ops, r: nat, p: Part, d: UnitData, ms: map<nat, seq<real>>): (cs: seq<Contribution>)
    ensures |cs| == |p.dbounds|
  {
    seq(|p.dbounds|, i requires 0 <= i < |p.dbounds| =>
      Contribution(p.dbounds[i].side, CutHat(o, r, p.dbounds[i], d, ms)))
  }

  /** The work after WaitAllReceives: the cut faces, then the mass matrices. */
  function Unpack(o: Ops, r: nat, p: Part, d: UnitData, ms: map<nat, seq<real>>): UnitData {
    var cs := CutFaces(o, r, p, d, ms);
    var acc := AddFaces(o, d.acc, cs, |cs|);
    d.(acc := acc, rows := map e | e in p.elements :: Minv(o, e, Get(acc, e)))
  }

  // ----- the cut mesh -----

  /** The other end of a cut face: the same face from beyond, the buffers of the same pair, the same slot. */
  ghost predicate Mirror(m: Mesh, u: nat, b: DBound, b': DBound) {
    b.side in m.nb && b'.side == m.nb[b.side] && b'.peer == u && b'.offset == b.offset
  }

  /** Two cut faces of a unit never overlap in a buffer, whatever the pass. */
  ghost predicate Apart(o: Ops, b: DBound, b': DBound) {
    b.peer == b'.peer ==>
      b.offset + N_DDBATH_TERMS * o.ngp(b.side) <= b'.offset || b'.offset + N_DDBATH_TERMS * o.ngp(b'.side) <= b.offset
  }

  /** A unit's objects cover each face of its elements exactly once, each as the kind of object it should be. */
  ghost predicate PartFits(m: Mesh, o: Ops, owner: map<nat, nat>, u: nat, p: Part) {
    && (forall e :: e in p.elements <==> e in m.elements && e in owner && owner[e] == u)
    && (forall i, j | 0 <= i < j < |SidesOf(p)| :: SidesOf(p)[i] != SidesOf(p)[j])
    && (forall s {:trigger s in SidesOf(p)} :: s in SidesOf(p) <==> s.elt in p.elements && s.face < 3)
    && (forall i | 0 <= i < |p.interfaces| ::
          p.interfaces[i].inner in m.nb && m.nb[p.interfaces[i].inner] == p.interfaces[i].outer)
    && (forall i | 0 <= i < |p.boundaries| :: p.boundaries[i] !in m.nb)
    && (forall i, j | 0 <= i < j < |p.dbounds| :: Apart(o, p.dbounds[i], p.dbounds[j]))
  }

  /** The buffer reserves the widest quantity's values for every cut face. */
  ghost predicate HasRoom(o: Ops, send: map<nat, seq<real>>, b: DBound) {
    b.offset + N_DDBATH_TERMS * o.ngp(b.side) <= |Buffer(send, b.peer)|
  }

  /** Cut face i of unit u: its neighbour holds the other end, and the buffer has room for it. */
  ghost predicate CutFits(m: Mesh, o: Ops, parts: seq<Part>, send: map<nat, seq<real>>, u: nat, b: DBound) {
    && b.peer < |parts|
    && HasRoom(o, send, b)
    && exists j :: 0 <= j < |parts[b.peer].dbounds| && Mirror(m, u, b, parts[b.peer].dbounds[j])
  }

  /** Where the units live, who they talk to, and what they start from. */
  datatype Layout = Layout(
    rank: seq<nat>, submesh: seq<nat>, thread: seq<nat>, nbrs: seq<set<nat>>, init: seq<UnitData>)

  /** First, second and third derivatives. */
  const PASSES: nat := 3

  /** The halo protocol run by compute_bathymetry_derivatives_ompi. */
  ghost function Exchange(o: Ops, parts: seq<Part>, l: Layout): Config<UnitData, seq<real>> {
    Config(l.rank, l.submesh, l.thread, l.nbrs, l.init, PASSES,
           (u: nat, r: nat, d: UnitData) => PackFaces(o, r, PartOf(parts, u), d, |PartOf(parts, u).dbounds|),
           (u: nat, v: nat, d: UnitData) => Buffer(d.send, v),
           (u: nat, r: nat, d: UnitData) => LocalWork(o, r, PartOf(parts, u), d),
           (u: nat, r: nat, d: UnitData, ms: map<nat, seq<real>>) => Unpack(o, r, PartOf(parts, u), d, ms))
  }

  function PartOf(parts: seq<Part>, u: nat): Part {
    if u < |parts| then parts[u] else Part([], [], [], [])
  }

  ghost predicate Network(m: Mesh, o: Ops, owner: map<nat, nat>, parts: seq<Part>, l: Layout) {
    && m.WellFormed() && o.WellFormed(m)
    && Exchange(o, parts, l).WellFormed() && |parts| == |l.rank|
    && (forall u {:trigger PartFits(m, o, owner, u, parts[u])} | 0 <= u < |parts| :: PartFits(m, o, owner, u, parts[u]))
    && (forall u, i {:trigger CutFits(m, o, parts, l.init[u].send, u, parts[u].dbounds[i])} |
          0 <= u < |parts| && 0 <= i < |parts[u].dbounds| ::
          CutFits(m, o, parts, l.init[u].send, u, parts[u].dbounds[i])
          && Exchange(o, parts, l).Nbr(u, parts[u].dbounds[i].peer))
  }

  lemma ExchangeFramed(o: Ops, parts: seq<Part>, l: Layout)
    ensures Exchange(o, parts, l).BuffersFramed()
  {
  }

  // ----- packing -----

  /** Packing keeps the rows, and every buffer's length. */
  lemma {:induction false} PackKeeps(o: Ops, r: nat, p: Part, d: UnitData, k: nat)
    requires k <= |p.dbounds|
    ensures PackFaces(o, r, p, d, k).rows == d.rows
    ensures forall v :: |Buffer(PackFaces(o, r, p, d, k).send, v)| == |Buffer(d.send, v)|
  {
    if k > 0 {
      PackKeeps(o, r, p, d, k - 1);
    }
  }

  lemma OverwrittenSlice(buf: seq<real>, offset: nat, msg: seq<real>)
    requires offset + |msg| <= |buf|
    ensures Slice(Overwritten(buf, offset, msg), offset, |msg|) == msg
  {
    forall i | 0 <= i < |msg|
      ensures Slice(Overwritten(buf, offset, msg), offset, |msg|)[i] == msg[i]
    {
      var b := Overwritten(buf, offset, msg);
      assert b[offset + i] == msg[i] == At(b, offset + i);
      assert Slice(b, offset, |msg|)[i] == At(b, offset + i);
    }
  }

  lemma OverwrittenElsewhere(buf: seq<real>, offset: nat, msg: seq<real>, at: nat, n: nat)
    requires at + n <= offset || offset + |msg| <= at
    ensures Slice(Overwritten(buf, offset, msg), at, n) == Slice(buf, at, n)
  {
    forall i | 0 <= i < n
      ensures Slice(Overwritten(buf, offset, msg), at, n)[i] == Slice(buf, at, n)[i]
    {
      var b := Overwritten(buf, offset, msg);
      assert at + i < |buf| ==> b[at + i] == buf[at + i];
      assert At(b, at + i) == At(buf, at + i);
      assert Slice(b, at, n)[i] == At(b, at + i) && Slice(buf, at, n)[i] == At(buf, at + i);
    }
  }

  lemma {:induction false} TermsBound(r: nat)
    requires r < PASSES
    ensures 0 < Terms(r) <= N_DDBATH_TERMS
  {
    assert Terms(0) == 1 && Terms(1) == 2 && Terms(2) == 4;
  }

  lemma SlotLarge(n: nat, ngp: nat)
    requires n <= N_DDBATH_TERMS
    ensures n * ngp <= N_DDBATH_TERMS * ngp
  {
  }

  /** Face b's slot holds its encoded trace and its hat holds the trace. */
  ghost predicate Holds(o: Ops, r: nat, rows: map<nat, Rows>, d: UnitData, b: DBound) {
    var trace := Trace(o, r, b.side, Get(rows, b.side.elt));
    && Terms(r) > 0
    && Get(d.hat, b.side) == trace
    && Slice(Buffer(d.send, b.peer), b.offset, Terms(r) * o.ngp(b.side)) == Encode(trace, Terms(r), o.ngp(b.side))
  }

  /** Evaluating and writing one cut face fills its own slot. */
  lemma WrittenSlot(o: Ops, r: nat, d: UnitData, b: DBound)
    requires r < PASSES && HasRoom(o, d.send, b)
    ensures Holds(o, r, d.rows, WithTrace(o, r, d, b), b)
  {
    TermsBound(r);
    SlotLarge(Terms(r), o.ngp(b.side));
    OverwrittenSlice(Buffer(d.send, b.peer), b.offset,
                     Encode(Trace(o, r, b.side, Get(d.rows, b.side.elt)), Terms(r), o.ngp(b.side)));
  }

  /** It leaves the slots of other cut faces alone. */
  lemma OtherSlot(o: Ops, r: nat, d: UnitData, b: DBound, last: DBound)
    requires r < PASSES && Holds(o, r, d.rows, d, b) && Apart(o, b, last) && b.side != last.side
    ensures Holds(o, r, d.rows, WithTrace(o, r, d, last), b)
  {
    TermsBound(r);
    SlotLarge(Terms(r), o.ngp(b.side));
    SlotLarge(Terms(r), o.ngp(last.side));
    if b.peer == last.peer {
      OverwrittenElsewhere(Buffer(d.send, b.peer), last.offset,
                           Encode(Trace(o, r, last.side, Get(d.rows, last.side.elt)), Terms(r), o.ngp(last.side)),
                           b.offset, Terms(r) * o.ngp(b.side));
    }
  }

  ghost predicate Clear(o: Ops, b: DBound, b': DBound) {
    Apart(o, b, b') && b.side != b'.side
  }

  /** After packing, every cut face's trace is in its hat and in its slot. */
  lemma {:induction false} PackedSlotAt(o: Ops, r: nat, p: Part, d: UnitData, k: nat, i: nat)
    requires r < PASSES && i < k <= |p.dbounds| && HasRoom(o, d.send, p.dbounds[i])
    requires forall j | i < j < |p.dbounds| :: Clear(o, p.dbounds[i], p.dbounds[j])
    ensures Holds(o, r, d.rows, PackFaces(o, r, p, d, k), p.dbounds[i])
  {
    var last := k - 1;
    PackKeeps(o, r, p, d, last);
    var before := PackFaces(o, r, p, d, last);
    assert PackFaces(o, r, p, d, k) == WithTrace(o, r, before, p.dbounds[last]);
    if i == last {
      WrittenSlot(o, r, before, p.dbounds[i]);
    } else {
      PackedSlotAt(o, r, p, d, last, i);
      assert Clear(o, p.dbounds[i], p.dbounds[last]);
      OtherSlot(o, r, before, p.dbounds[i], p.dbounds[last]);
    }
  }

  lemma PackedSlot(m: Mesh, o: Ops, owner: map<nat, nat>, u: nat, r: nat, p: Part, d: UnitData, i: nat)
    requires r < PASSES && PartFits(m, o, owner, u, p) && i < |p.dbounds| && HasRoom(o, d.send, p.dbounds[i])
    ensures Holds(o, r, d.rows, PackFaces(o, r, p, d, |p.dbounds|), p.dbounds[i])
  {
    forall j | i < j < |p.dbounds|
      ensures Clear(o, p.dbounds[i], p.dbounds[j])
    {
      DBoundSidesDiffer(p, i, j);
    }
    PackedSlotAt(o, r, p, d, |p.dbounds|, i);
  }

  lemma DBoundSidesDiffer(p: Part, i: nat, j: nat)
    requires i < j < |p.dbounds|
    requires forall a, b | 0 <= a < b < |SidesOf(p)| :: SidesOf(p)[a] != SidesOf(p)[b]
    ensures p.dbounds[i].side != p.dbounds[j].side
  {
    var first := 2 * |p.interfaces| + |p.boundaries|;
    assert SidesOf(p)[first + i] == p.dbounds[i].side && SidesOf(p)[first + j] == p.dbounds[j].side;
  }

  // ----- lock step computes the derivatives of the undivided mesh -----

  ghost predicate RowsCurrent(m: Mesh, o: Ops, r: nat, p: Part, rows: map<nat, Rows>) {
    r > 0 ==> forall e | e in p.elements :: Get(rows, e) == Derivative(m, o, r, e)
  }

  /** Unit u's rows are the derivatives after r passes, and its buffers still have their length. */
  ghost predicate Current(m: Mesh, o: Ops, parts: seq<Part>, l: Layout, r: nat, u: nat)
    requires Exchange(o, parts, l).WellFormed() && u < |l.rank|
  {
    var d := Sync(Exchange(o, parts, l), r, u);
    && RowsCurrent(m, o, r, PartOf(parts, u), d.rows)
    && (forall v :: |Buffer(d.send, v)| == |Buffer(l.init[u].send, v)|)
  }

  /** With current rows, a trace is the trace of the undivided mesh's derivative. */
  lemma CurrentTrace(m: Mesh, o: Ops, r: nat, p: Part, rows: map<nat, Rows>, s: Side)
    requires RowsCurrent(m, o, r, p, rows) && s.elt in p.elements
    ensures Trace(o, r, s, Get(rows, s.elt)) == Trace(o, r, s, Derivative(m, o, r, s.elt))
  {
  }

  lemma {:induction false} DerivativeSize(m: Mesh, o: Ops, r: nat, e: nat)
    requires r > 0
    ensures |Derivative(m, o, r, e)| == Terms(r)
  {
    if r > 1 {
      DerivativeSize(m, o, r - 1, e);
    }
  }

  lemma TraceSize(m: Mesh, o: Ops, r: nat, s: Side)
    requires o.WellFormed(m)
    ensures Sized(Trace(o, r, s, Derivative(m, o, r, s.elt)), Terms(r), o.ngp(s))
  {
    if r > 0 {
      DerivativeSize(m, o, r, s.elt);
    }
  }

  /** The far values unit u decodes for a cut face from the messages of pass r. */
  ghost function Heard(o: Ops, parts: seq<Part>, l: Layout, r: nat, u: nat, b: DBound): Rows
    requires Exchange(o, parts, l).WellFormed() && u < |l.rank|
  {
    Decode(Slice(Buffer(Messages(Exchange(o, parts, l), r, u), b.peer), b.offset, Terms(r) * o.ngp(b.side)),
           Terms(r), o.ngp(b.side))
  }

  /** The slot of a packed cut face holds the encoded trace of the undivided mesh's derivative. */
  ghost predicate Carries(m: Mesh, o: Ops, parts: seq<Part>, l: Layout, r: nat, v: nat, b: DBound)
    requires Exchange(o, parts, l).WellFormed() && v < |l.rank|
  {
    && Terms(r) > 0
    && Slice(Buffer(Packed(Exchange(o, parts, l), r, v).send, b.peer), b.offset, Terms(r) * o.ngp(b.side))
       == Encode(Trace(o, r, b.side, Derivative(m, o, r, b.side.elt)), Terms(r), o.ngp(b.side))
  }

  lemma SlotCarriesTrace(m: Mesh, o: Ops, owner: map<nat, nat>, parts: seq<Part>, l: Layout, r: nat, v: nat, j: nat)
    requires Exchange(o, parts, l).WellFormed() && v < |l.rank| == |parts| && j < |parts[v].dbounds|
    requires r < PASSES && o.WellFormed(m) && PartFits(m, o, owner, v, parts[v])
    requires CutFits(m, o, parts, l.init[v].send, v, parts[v].dbounds[j])
    requires Current(m, o, parts, l, r, v)
    ensures Carries(m, o, parts, l, r, v, parts[v].dbounds[j])
  {
    var c, far := Exchange(o, parts, l), parts[v].dbounds[j];
    var d := Sync(c, r, v);
    TermsBound(r);
    PackedSlot(m, o, owner, v, r, parts[v], d, j);
    assert Holds(o, r, d.rows, Packed(c, r, v), far);
    DBoundIsOwn(parts[v], j);
    CurrentTrace(m, o, r, parts[v], d.rows, far.side);
  }

  /** What unit u hears for a cut face is the far trace of the undivided mesh, point for point. */
  lemma HearsFarTrace(m: Mesh, o: Ops, owner: map<nat, nat>, parts: seq<Part>, l: Layout, r: nat, u: nat, i: nat)
    requires Exchange(o, parts, l).WellFormed() && u < |l.rank| && i < |PartOf(parts, u).dbounds|
    requires Network(m, o, owner, parts, l) && r < PASSES
    requires forall v | 0 <= v < |parts| :: Current(m, o, parts, l, r, v)
    ensures var b := PartOf(parts, u).dbounds[i];
            && b.side in m.nb
            && Heard(o, parts, l, r, u, b) == Trace(o, r, m.nb[b.side], Derivative(m, o, r, m.nb[b.side].elt))
  {
    var c, b := Exchange(o, parts, l), parts[u].dbounds[i];
    assert CutFits(m, o, parts, l.init[u].send, u, b) && c.Nbr(u, b.peer);
    var j :| 0 <= j < |parts[b.peer].dbounds| && Mirror(m, u, b, parts[b.peer].dbounds[j]);
    SlotCarriesTrace(m, o, owner, parts, l, r, b.peer, j);
    var far := m.nb[b.side];
    TraceSize(m, o, r, far);
    DecodeEncode(Trace(o, r, far, Derivative(m, o, r, far.elt)), Terms(r), o.ngp(far));
  }

  lemma DBoundIsOwn(p: Part, j: nat)
    requires j < |p.dbounds|
    ensures p.dbounds[j].side in SidesOf(p)
  {
    assert SidesOf(p)[2 * |p.interfaces| + |p.boundaries| + j] == p.dbounds[j].side;
  }

  lemma AddFacesConcat(o: Ops, acc: map<nat, Rows>, a: seq<Contribution>, b: seq<Contribution>)
    ensures AddFaces(o, acc, a + b, |a| + |b|) == AddFaces(o, AddFaces(o, acc, a, |a|), b, |b|)
  {
    FoldConcat((acc: map<nat, Rows>, c: Contribution) => AddFace(o, acc, c), acc, a, b, |b|);
  }

  /** Contribution c puts the undivided mesh's face value on side s. */
  ghost predicate Right(m: Mesh, o: Ops, r: nat, s: Side, c: Contribution) {
    c == Contribution(s, HatAt(m, o, r, s))
  }

  lemma InterfaceIsRight(m: Mesh, o: Ops, r: nat, p: Part, rows: map<nat, Rows>, f: Interface)
    requires m.WellFormed() && o.WellFormed(m) && RowsCurrent(m, o, r, p, rows)
    requires f.inner in m.nb && m.nb[f.inner] == f.outer
    requires f.inner.elt in p.elements && f.outer.elt in p.elements
    ensures Right(m, o, r, f.inner, Contribution(f.inner, InnerHat(o, r, f, rows)))
    ensures Right(m, o, r, f.outer, Contribution(f.outer, Reversed(InnerHat(o, r, f, rows), o.ngp(f.inner))))
  {
    CurrentTrace(m, o, r, p, rows, f.inner);
    CurrentTrace(m, o, r, p, rows, f.outer);
    TraceSize(m, o, r, f.inner);
    TraceSize(m, o, r, f.outer);
    AverageIsSingleValued(Trace(o, r, f.inner, Derivative(m, o, r, f.inner.elt)),
                          Trace(o, r, f.outer, Derivative(m, o, r, f.outer.elt)), o.ngp(f.inner));
  }

  /** Interfaces join faces of the part's own elements. */
  ghost predicate InterfacesOwned(m: Mesh, p: Part) {
    forall i | 0 <= i < |p.interfaces| ::
      && p.interfaces[i].inner in m.nb && m.nb[p.interfaces[i].inner] == p.interfaces[i].outer
      && p.interfaces[i].inner.elt in p.elements && p.interfaces[i].outer.elt in p.elements
  }

  lemma FittingInterfacesOwned(m: Mesh, o: Ops, owner: map<nat, nat>, u: nat, p: Part)
    requires PartFits(m, o, owner, u, p)
    ensures InterfacesOwned(m, p)
  {
    forall j | 0 <= j < |p.interfaces|
      ensures p.interfaces[j].inner.elt in p.elements && p.interfaces[j].outer.elt in p.elements
    {
      InterfaceSidesOwn(p, |p.interfaces|, j);
      assert p.interfaces[j].inner in SidesOf(p) && p.interfaces[j].outer in SidesOf(p);
    }
  }

  lemma BoundaryIsRight(m: Mesh, o: Ops, r: nat, p: Part, rows: map<nat, Rows>, j: nat)
    requires RowsCurrent(m, o, r, p, rows) && j < |p.boundaries|
    requires p.boundaries[j].elt in p.elements && p.boundaries[j] !in m.nb
    ensures Right(m, o, r, p.boundaries[j], BoundaryFaces(o, r, p, rows)[j])
  {
    CurrentTrace(m, o, r, p, rows, p.boundaries[j]);
  }

  lemma {:induction false} InterfacesAreRight(m: Mesh, o: Ops, r: nat, p: Part, rows: map<nat, Rows>, k: nat)
    requires m.WellFormed() && o.WellFormed(m) && RowsCurrent(m, o, r, p, rows) && k <= |p.interfaces|
    requires InterfacesOwned(m, p)
    ensures forall i | 0 <= i < 2 * k ::
              Right(m, o, r, InterfaceSides(p.interfaces, k)[i], InterfaceFaces(o, r, p, rows, k)[i])
  {
    if k > 0 {
      InterfacesAreRight(m, o, r, p, rows, k - 1);
      var f := p.interfaces[k - 1];
      InterfaceIsRight(m, o, r, p, rows, f);
      PairMoreIsRight(m, o, r, InterfaceSides(p.interfaces, k - 1), InterfaceFaces(o, r, p, rows, k - 1),
                      f.inner, f.outer, Contribution(f.inner, InnerHat(o, r, f, rows)),
                      Contribution(f.outer, Reversed(InnerHat(o, r, f, rows), o.ngp(f.inner))));
    }
  }

  lemma PairMoreIsRight(m: Mesh, o: Ops, r: nat, sides: seq<Side>, faces: seq<Contribution>,
                        s: Side, t: Side, x: Contribution, y: Contribution)
    requires |sides| == |faces| && forall i | 0 <= i < |sides| :: Right(m, o, r, sides[i], faces[i])
    requires Right(m, o, r, s, x) && Right(m, o, r, t, y)
    ensures forall i | 0 <= i < |sides| + 2 :: Right(m, o, r, (sides + [s, t])[i], (faces + [x, y])[i])
  {
  }

  lemma {:induction false} InterfaceSidesOwn(p: Part, k: nat, i: nat)
    requires i < k <= |p.interfaces|
    ensures p.interfaces[i].inner in InterfaceSides(p.interfaces, k)
            && p.interfaces[i].outer in InterfaceSides(p.interfaces, k)
  {
    if i == k - 1 {
      assert InterfaceSides(p.interfaces, k)[2 * i] == p.interfaces[i].inner
             && InterfaceSides(p.interfaces, k)[2 * i + 1] == p.interfaces[i].outer;
    } else {
      InterfaceSidesOwn(p, k - 1, i);
    }
  }

  /** Every contribution of a unit's local work puts the right value on the right side. */
  lemma LocalIsRight(m: Mesh, o: Ops, r: nat, p: Part, rows: map<nat, Rows>, i: nat)
    requires m.WellFormed() && o.WellFormed(m) && LocalOwned(m, p) && RowsCurrent(m, o, r, p, rows)
    requires i < |LocalFaces(o, r, p, rows)|
    ensures i < |SidesOf(p)| && Right(m, o, r, SidesOf(p)[i], LocalFaces(o, r, p, rows)[i])
  {
    if i < 2 * |p.interfaces| {
      InterfacePassIsRight(m, o, r, p, rows, i);
    } else {
      BoundaryPassIsRight(m, o, r, p, rows, i - 2 * |p.interfaces|);
    }
  }

  lemma BoundaryPassIsRight(m: Mesh, o: Ops, r: nat, p: Part, rows: map<nat, Rows>, j: nat)
    requires RowsCurrent(m, o, r, p, rows) && j < |p.boundaries|
    requires p.boundaries[j].elt in p.elements && p.boundaries[j] !in m.nb
    ensures Right(m, o, r, SidesOf(p)[2 * |p.interfaces| + j], LocalFaces(o, r, p, rows)[2 * |p.interfaces| + j])
  {
    BoundaryIsRight(m, o, r, p, rows, j);
    assert SidesOf(p)[2 * |p.interfaces| + j] == p.boundaries[j];
  }

  /** Interfaces and boundaries are faces of the part's own elements, of the right kind. */
  ghost predicate LocalOwned(m: Mesh, p: Part) {
    InterfacesOwned(m, p)
    && forall j | 0 <= j < |p.boundaries| :: p.boundaries[j].elt in p.elements && p.boundaries[j] !in m.nb
  }

  lemma FittingLocalOwned(m: Mesh, o: Ops, owner: map<nat, nat>, u: nat, p: Part)
    requires PartFits(m, o, owner, u, p)
    ensures LocalOwned(m, p)
  {
    FittingInterfacesOwned(m, o, owner, u, p);
    forall j | 0 <= j < |p.boundaries|
      ensures p.boundaries[j].elt in p.elements && p.boundaries[j] !in m.nb
    {
      FittingBoundaryOwned(m, o, owner, u, p, j);
    }
  }

  lemma NetworkParts(m: Mesh, o: Ops, owner: map<nat, nat>, parts: seq<Part>, l: Layout, u: nat)
    requires Network(m, o, owner, parts, l) && u < |parts|
    ensures PartFits(m, o, owner, u, parts[u]) && LocalOwned(m, parts[u]) && m.WellFormed() && o.WellFormed(m)
  {
    assert PartFits(m, o, owner, u, parts[u]);
    FittingLocalOwned(m, o, owner, u, parts[u]);
  }

  lemma InterfacePassIsRight(m: Mesh, o: Ops, r: nat, p: Part, rows: map<nat, Rows>, i: nat)
    requires m.WellFormed() && o.WellFormed(m) && InterfacesOwned(m, p) && RowsCurrent(m, o, r, p, rows)
    requires i < 2 * |p.interfaces|
    ensures Right(m, o, r, SidesOf(p)[i], LocalFaces(o, r, p, rows)[i])
  {
    InterfacesAreRight(m, o, r, p, rows, |p.interfaces|);
  }

  lemma FittingBoundaryOwned(m: Mesh, o: Ops, owner: map<nat, nat>, u: nat, p: Part, j: nat)
    requires PartFits(m, o, owner, u, p) && j < |p.boundaries|
    ensures SidesOf(p)[2 * |p.interfaces| + j] == p.boundaries[j]
    ensures p.boundaries[j].elt in p.elements && p.boundaries[j] !in m.nb
  {
    assert SidesOf(p)[2 * |p.interfaces| + j] in SidesOf(p);
  }

  /** Contribution i puts the right value on side i of the part. */
  ghost predicate AllRight(m: Mesh, o: Ops, r: nat, p: Part, cs: seq<Contribution>) {
    |cs| == |SidesOf(p)| && forall i | 0 <= i < |cs| :: Right(m, o, r, SidesOf(p)[i], cs[i])
  }

  /**
   If every side of the part gets the right value once, in whatever order, an element ends with its next derivatives.
   */
  lemma PassOnElement(m: Mesh, o: Ops, owner: map<nat, nat>, u: nat, r: nat, p: Part, rows: map<nat, Rows>,
                      cs: seq<Contribution>, e: nat)
    requires PartFits(m, o, owner, u, p) && RowsCurrent(m, o, r, p, rows) && e in p.elements
    requires AllRight(m, o, r, p, cs)
    ensures Minv(o, e, Get(AddFaces(o, VolumeOf(o, r, p, rows), cs, |cs|), e)) == Derivative(m, o, r + 1, e)
  {
    var hats := Hats(m, o, r, e);
    forall i | 0 <= i < |cs|
      ensures cs[i].side == SidesOf(p)[i] && cs[i].side.face < 3
      ensures cs[i].side.elt == e ==> cs[i].hat == hats[cs[i].side.face]
    {
      assert SidesOf(p)[i] in SidesOf(p);
      assert Right(m, o, r, SidesOf(p)[i], cs[i]);
      FaceCases(cs[i].side);
    }
    VisitsAddUp(o, VolumeOf(o, r, p, rows), cs, |cs|, e, hats);
    AllFacesVisited(m, o, owner, u, p, cs, e);
    assert Get(VolumeOf(o, r, p, rows), e) == Volume(o, e, Inside(o, r, e, Derivative(m, o, r, e)));
  }

  lemma FaceCases(s: Side)
    requires s.face < 3
    ensures s == Side(s.elt, 0) || s == Side(s.elt, 1) || s == Side(s.elt, 2)
  {
  }

  lemma AllFacesVisited(m: Mesh, o: Ops, owner: map<nat, nat>, u: nat, p: Part, cs: seq<Contribution>, e: nat)
    requires PartFits(m, o, owner, u, p) && e in p.elements
    requires |cs| == |SidesOf(p)| && forall i | 0 <= i < |cs| :: cs[i].side == SidesOf(p)[i]
    ensures Visited(cs, |cs|, e) == {0, 1, 2}
  {
    forall f: nat | f < 3
      ensures f in Visited(cs, |cs|, e)
    {
      assert Side(e, f) in SidesOf(p);
      var i :| 0 <= i < |SidesOf(p)| && SidesOf(p)[i] == Side(e, f);
      assert cs[i].side.elt == e && cs[i].side.face == f;
    }
    forall f | f in Visited(cs, |cs|, e)
      ensures f < 3
    {
      var i :| 0 <= i < |cs| && cs[i].side.elt == e && cs[i].side.face == f;
      assert SidesOf(p)[i] in SidesOf(p);
    }
  }

  /** Every contribution of a unit's cut faces puts the right value on the right side. */
  lemma CutIsRight(m: Mesh, o: Ops, owner: map<nat, nat>, parts: seq<Part>, l: Layout, r: nat, u: nat, i: nat)
    requires Exchange(o, parts, l).WellFormed() && u < |l.rank| && i < |PartOf(parts, u).dbounds|
    requires Network(m, o, owner, parts, l) && r < PASSES
    requires forall v | 0 <= v < |parts| :: Current(m, o, parts, l, r, v)
    ensures var c := Exchange(o, parts, l);
            var b := PartOf(parts, u).dbounds[i];
            Right(m, o, r, b.side, Contribution(b.side, CutHat(o, r, b, Packed(c, r, u), Messages(c, r, u))))
  {
    var c, b := Exchange(o, parts, l), PartOf(parts, u).dbounds[i];
    HearsFarTrace(m, o, owner, parts, l, r, u, i);
    assert Current(m, o, parts, l, r, u) && PartFits(m, o, owner, u, parts[u]);
    PackedHat(m, o, owner, parts, l, r, u, i);
    DBoundIsOwn(parts[u], i);
    CurrentTrace(m, o, r, parts[u], Sync(c, r, u).rows, b.side);
  }

  lemma PackedHat(m: Mesh, o: Ops, owner: map<nat, nat>, parts: seq<Part>, l: Layout, r: nat, u: nat, i: nat)
    requires Exchange(o, parts, l).WellFormed() && u < |l.rank| && i < |PartOf(parts, u).dbounds|
    requires Network(m, o, owner, parts, l) && r < PASSES
    requires Current(m, o, parts, l, r, u)
    ensures var c := Exchange(o, parts, l);
            var b := PartOf(parts, u).dbounds[i];
            Get(Packed(c, r, u).hat, b.side) == Trace(o, r, b.side, Get(Sync(c, r, u).rows, b.side.elt))
  {
    var c, p := Exchange(o, parts, l), parts[u];
    var d := Sync(c, r, u);
    assert PartFits(m, o, owner, u, p);
    assert CutFits(m, o, parts, l.init[u].send, u, p.dbounds[i]);
    PackedSlot(m, o, owner, u, r, p, d, i);
    assert Holds(o, r, d.rows, Packed(c, r, u), p.dbounds[i]);
  }

  /** The contributions of unit u's local work in pass r, and those of its cut faces. */
  ghost function LocalPart(o: Ops, parts: seq<Part>, l: Layout, r: nat, u: nat): seq<Contribution>
    requires Exchange(o, parts, l).WellFormed() && u < |l.rank|
  {
    LocalFaces(o, r, PartOf(parts, u), Packed(Exchange(o, parts, l), r, u).rows)
  }

  ghost function CutPart(o: Ops, parts: seq<Part>, l: Layout, r: nat, u: nat): (cs: seq<Contribution>)
    requires Exchange(o, parts, l).WellFormed() && u < |l.rank|
    ensures |cs| == |PartOf(parts, u).dbounds|
  {
    var c := Exchange(o, parts, l);
    CutFaces(o, r, PartOf(parts, u), c.local(u, r, Packed(c, r, u)), Messages(c, r, u))
  }

  /** Each contribution of local work puts the right value on its side. */
  ghost predicate LocalRight(m: Mesh, o: Ops, r: nat, p: Part, local: seq<Contribution>) {
    |local| == 2 * |p.interfaces| + |p.boundaries| && forall i | 0 <= i < |local| ::
          Right(m, o, r, SidesOf(p)[i], local[i])
  }

  ghost predicate CutRight(m: Mesh, o: Ops, r: nat, p: Part, cut: seq<Contribution>) {
    |cut| == |p.dbounds| && forall j | 0 <= j < |cut| :: Right(m, o, r, p.dbounds[j].side, cut[j])
  }

  lemma LocalFacesRight(m: Mesh, o: Ops, r: nat, p: Part, rows: map<nat, Rows>)
    requires m.WellFormed() && o.WellFormed(m) && LocalOwned(m, p) && RowsCurrent(m, o, r, p, rows)
    ensures LocalRight(m, o, r, p, LocalFaces(o, r, p, rows))
  {
    forall i | 0 <= i < |LocalFaces(o, r, p, rows)|
      ensures Right(m, o, r, SidesOf(p)[i], LocalFaces(o, r, p, rows)[i])
    {
      LocalIsRight(m, o, r, p, rows, i);
    }
  }

  lemma CutPartRight(m: Mesh, o: Ops, owner: map<nat, nat>, parts: seq<Part>, l: Layout, r: nat, u: nat)
    requires Exchange(o, parts, l).WellFormed() && u < |l.rank|
    requires Network(m, o, owner, parts, l) && r < PASSES
    requires forall v | 0 <= v < |parts| :: Current(m, o, parts, l, r, v)
    ensures CutRight(m, o, r, PartOf(parts, u), CutPart(o, parts, l, r, u))
  {
    forall j | 0 <= j < |PartOf(parts, u).dbounds|
      ensures Right(m, o, r, PartOf(parts, u).dbounds[j].side, CutPart(o, parts, l, r, u)[j])
    {
      CutIsRight(m, o, owner, parts, l, r, u, j);
    }
  }

  lemma PackedRowsCurrent(m: Mesh, o: Ops, parts: seq<Part>, l: Layout, r: nat, u: nat)
    requires Exchange(o, parts, l).WellFormed() && u < |l.rank| && Current(m, o, parts, l, r, u)
    ensures RowsCurrent(m, o, r, PartOf(parts, u), Packed(Exchange(o, parts, l), r, u).rows)
  {
    PackKeeps(o, r, PartOf(parts, u), Sync(Exchange(o, parts, l), r, u), |PartOf(parts, u).dbounds|);
  }

  /** Local contributions first, cut ones on top, then the mass matrix. */
  ghost function RowAfter(o: Ops, r: nat, p: Part, rows: map<nat, Rows>, local: seq<Contribution>,
                          cut: seq<Contribution>, e: nat): Rows {
    Minv(o, e, Get(AddFaces(o, AddFaces(o, VolumeOf(o, r, p, rows), local, |local|), cut, |cut|), e))
  }

  /** Which is the same as adding all of them in one go. */
  lemma RowAfterConcat(o: Ops, r: nat, p: Part, rows: map<nat, Rows>, local: seq<Contribution>,
                       cut: seq<Contribution>, e: nat)
    ensures RowAfter(o, r, p, rows, local, cut, e)
         == Minv(o, e, Get(AddFaces(o, VolumeOf(o, r, p, rows), local + cut, |local + cut|), e))
  {
    AddFacesConcat(o, VolumeOf(o, r, p, rows), local, cut);
  }

  /** If all contributions are right, an element ends with its next derivatives. */
  lemma RightPassOnElement(m: Mesh, o: Ops, owner: map<nat, nat>, u: nat, r: nat, p: Part, rows: map<nat, Rows>,
                           local: seq<Contribution>, cut: seq<Contribution>, e: nat)
    requires PartFits(m, o, owner, u, p) && RowsCurrent(m, o, r, p, rows) && e in p.elements
    requires LocalRight(m, o, r, p, local) && CutRight(m, o, r, p, cut)
    ensures RowAfter(o, r, p, rows, local, cut, e) == Derivative(m, o, r + 1, e)
  {
    AllSidesRight(m, o, r, p, local, cut);
    RowAfterConcat(o, r, p, rows, local, cut, e);
    PassOnElement(m, o, owner, u, r, p, rows, local + cut, e);
  }

  lemma AllSidesRight(m: Mesh, o: Ops, r: nat, p: Part, local: seq<Contribution>, cut: seq<Contribution>)
    requires LocalRight(m, o, r, p, local) && CutRight(m, o, r, p, cut)
    ensures AllRight(m, o, r, p, local + cut)
  {
    forall i | 0 <= i < |local + cut|
      ensures Right(m, o, r, SidesOf(p)[i], (local + cut)[i])
    {
      if i < |local| {
        assert (local + cut)[i] == local[i];
      } else {
        assert SidesOf(p)[i] == p.dbounds[i - |local|].side && (local + cut)[i] == cut[i - |local|];
      }
    }
  }

  /** The rows of unit u after pass r. */
  lemma RowsAfterPass(o: Ops, parts: seq<Part>, l: Layout, r: nat, u: nat, e: nat)
    requires Exchange(o, parts, l).WellFormed() && u < |l.rank| && e in PartOf(parts, u).elements
    ensures Get(Sync(Exchange(o, parts, l), r + 1, u).rows, e)
         == RowAfter(o, r, PartOf(parts, u), Packed(Exchange(o, parts, l), r, u).rows,
                     LocalPart(o, parts, l, r, u), CutPart(o, parts, l, r, u), e)
  {
  }

  lemma BuffersAfterPass(o: Ops, parts: seq<Part>, l: Layout, r: nat, u: nat)
    requires Exchange(o, parts, l).WellFormed() && u < |l.rank|
    ensures forall v ::
              |Buffer(Sync(Exchange(o, parts, l), r + 1, u).send, v)|
              == |Buffer(Sync(Exchange(o, parts, l), r, u).send, v)|
  {
    var c, p := Exchange(o, parts, l), PartOf(parts, u);
    PackKeeps(o, r, p, Sync(c, r, u), |p.dbounds|);
  }

  /** One pass in lock step keeps every unit current. */
  lemma PassKeepsCurrent(m: Mesh, o: Ops, owner: map<nat, nat>, parts: seq<Part>, l: Layout, r: nat, u: nat)
    requires Exchange(o, parts, l).WellFormed() && u < |l.rank|
    requires Network(m, o, owner, parts, l) && r < PASSES
    requires forall v | 0 <= v < |parts| :: Current(m, o, parts, l, r, v)
    ensures Current(m, o, parts, l, r + 1, u)
  {
    BuffersAfterPass(o, parts, l, r, u);
    CutPartRight(m, o, owner, parts, l, r, u);
    PackedRowsCurrent(m, o, parts, l, r, u);
    forall e | e in PartOf(parts, u).elements
      ensures Get(Sync(Exchange(o, parts, l), r + 1, u).rows, e) == Derivative(m, o, r + 1, e)
    {
      RowsAfterPass(o, parts, l, r, u, e);
      ElementAfterPass(m, o, owner, parts, l, r, u, e);
    }
  }

  lemma ElementAfterPass(m: Mesh, o: Ops, owner: map<nat, nat>, parts: seq<Part>, l: Layout, r: nat, u: nat, e: nat)
    requires Exchange(o, parts, l).WellFormed() && u < |l.rank| && e in PartOf(parts, u).elements
    requires Network(m, o, owner, parts, l)
    requires RowsCurrent(m, o, r, PartOf(parts, u), Packed(Exchange(o, parts, l), r, u).rows)
    requires CutRight(m, o, r, PartOf(parts, u), CutPart(o, parts, l, r, u))
    ensures RowAfter(o, r, PartOf(parts, u), Packed(Exchange(o, parts, l), r, u).rows,
                     LocalPart(o, parts, l, r, u), CutPart(o, parts, l, r, u), e) == Derivative(m, o, r + 1, e)
  {
    var rows := Packed(Exchange(o, parts, l), r, u).rows;
    NetworkParts(m, o, owner, parts, l, u);
    LocalFacesRight(m, o, r, PartOf(parts, u), rows);
    RightPassOnElement(m, o, owner, u, r, PartOf(parts, u), rows, LocalPart(o, parts, l, r, u),
                       CutPart(o, parts, l, r, u), e);
  }

  lemma {:induction false} LockStepIsCurrent(m: Mesh, o: Ops, owner: map<nat, nat>, parts: seq<Part>, l: Layout,
                                             r: nat, u: nat)
    requires Exchange(o, parts, l).WellFormed() && u < |l.rank|
    requires Network(m, o, owner, parts, l) && r <= PASSES
    ensures Current(m, o, parts, l, r, u)
  {
    if r > 0 {
      var q := r - 1;
      forall v | 0 <= v < |parts|
        ensures Current(m, o, parts, l, q, v)
      {
        LockStepIsCurrent(m, o, owner, parts, l, q, v);
      }
      PassKeepsCurrent(m, o, owner, parts, l, q, u);
    }
  }

  lemma RowsWhilePending(o: Ops, parts: seq<Part>, l: Layout, r: nat, u: nat)
    requires Exchange(o, parts, l).WellFormed() && u < |l.rank|
    ensures var c := Exchange(o, parts, l);
            Packed(c, r, u).rows == c.local(u, r, Packed(c, r, u)).rows == Sync(c, r, u).rows
  {
    var p, d := PartOf(parts, u), Sync(Exchange(o, parts, l), r, u);
    PackKeeps(o, r, p, d, |p.dbounds|);
  }

  /** At any point of a round, the rows are those of the last round whose messages were unpacked. */
  lemma ExpectedRows(o: Ops, parts: seq<Part>, l: Layout, u: nat, p: Pos)
    requires Exchange(o, parts, l).WellFormed() && u < |l.rank| && p.action <= WAIT_SENDS
    ensures Expected(Exchange(o, parts, l), u, p).rows == Sync(Exchange(o, parts, l), Unpacked(p), u).rows
  {
    if PACK < p.action <= WAIT_RECEIVES {
      RowsWhilePending(o, parts, l, p.round, u);
    }
  }

  /**
   For every partition of the mesh and every interleaving of threads, units and messages: in every state of a run, each
   unit that has unpacked r rounds holds, for each of its elements, the r-th derivatives of the undivided mesh; so the
   first, second and third derivatives are what every unit has after its first, second and third round.
   */
  lemma DistributedEqualsUndivided(m: Mesh, o: Ops, owner: map<nat, nat>, parts: seq<Part>, l: Layout,
                                   run: seq<State<UnitData, seq<real>>>, moves: seq<Move>, t: nat, u: nat, e: nat)
    requires Exchange(o, parts, l).WellFormed() && u < |l.rank| && e in PartOf(parts, u).elements
    requires Network(m, o, owner, parts, l)
    requires Run(Exchange(o, parts, l), run, moves) && t < |run|
    ensures u < |run[t].pos| && u < |run[t].data|
    ensures var r := Unpacked(run[t].pos[u]);
            && (0 < r ==> Get(run[t].data[u].rows, e) == Derivative(m, o, r, e))
            && r <= PASSES && (Finished(Exchange(o, parts, l), run[t]) ==> r == PASSES)
  {
    var c := Exchange(o, parts, l);
    RunInv(c, run, moves, t);
    assert UnitInv(c, run[t], u);
    var p := run[t].pos[u];
    ExpectedRows(o, parts, l, u, p);
    LockStepIsCurrent(m, o, owner, parts, l, Unpacked(p), u);
  }

  // ----- the serial computation -----

  /** One serial pass over a discretization without cut faces. */
  function SerialPassRows(o: Ops, r: nat, p: Part, rows: map<nat, Rows>): map<nat, Rows> {
    var acc := LocalWork(o, r, p, UnitData(rows, map[], map[], map[])).acc;
    map e | e in p.elements :: Minv(o, e, Get(acc, e))
  }

  function SerialRows(o: Ops, r: nat, p: Part): map<nat, Rows> {
    if r == 0 then map[] else SerialPassRows(o, r - 1, p, SerialRows(o, r - 1, p))
  }

  /** The serial program computes the derivatives of the undivided mesh. */
  lemma {:induction false} SerialIsCurrent(m: Mesh, o: Ops, owner: map<nat, nat>, u: nat, r: nat, p: Part)
    requires m.WellFormed() && o.WellFormed(m) && PartFits(m, o, owner, u, p) && p.dbounds == []
    ensures RowsCurrent(m, o, r, p, SerialRows(o, r, p))
  {
    if r > 0 {
      SerialIsCurrent(m, o, owner, u, r - 1, p);
      var rows := SerialRows(o, r - 1, p);
      FittingLocalOwned(m, o, owner, u, p);
      LocalFacesRight(m, o, r - 1, p, rows);
      forall e | e in p.elements
        ensures Get(SerialRows(o, r, p), e) == Derivative(m, o, r, e)
      {
        RightPassOnElement(m, o, owner, u, r - 1, p, rows, LocalFaces(o, r - 1, p, rows), [], e);
      }
    }
  }

  /**
   The distributed program refines the serial one: for every partition and every interleaving, a unit that has unpacked
   r rounds has on every element exactly the rows of the r-th pass of the serial run over the whole mesh, whatever order
   either visits faces in; and when the exchange has finished, r is the number of passes.
   */
  lemma DistributedEqualsSerial(m: Mesh, o: Ops, owner: map<nat, nat>, parts: seq<Part>, l: Layout,
                                run: seq<State<UnitData, seq<real>>>, moves: seq<Move>, t: nat, u: nat, e: nat,
                                whole: map<nat, nat>, serial: Part)
    requires Exchange(o, parts, l).WellFormed() && u < |l.rank| && e in PartOf(parts, u).elements
    requires Network(m, o, owner, parts, l)
    requires Run(Exchange(o, parts, l), run, moves) && t < |run|
    requires PartFits(m, o, whole, 0, serial) && serial.dbounds == [] && e in serial.elements
    ensures u < |run[t].pos| && u < |run[t].data|
    ensures var r := Unpacked(run[t].pos[u]);
            && (0 < r ==> Get(run[t].data[u].rows, e) == Get(SerialRows(o, r, serial), e))
            && r <= PASSES && (Finished(Exchange(o, parts, l), run[t]) ==> r == PASSES)
  {
    DistributedEqualsUndivided(m, o, owner, parts, l, run, moves, t, u, e);
    SerialIsCurrent(m, o, whole, 0, Unpacked(run[t].pos[u]), serial);
  }
}
