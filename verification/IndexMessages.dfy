/**
 The exchange of first indices run by the message protocol: one round in which nothing is left to pack, every unit sends
 the buffers its numbering filled, and completes its cut edges once all its messages are there.
 */
module IndexMessages {
  import D = DofNumbering
  import opened IndexExchange
  import opened HaloProtocol

  /** Where a unit of the machine-wide count lives. */
  datatype Place = Place(rank: nat, unit: nat)

  /** at counts every unit of the machine once. */
  ghost predicate Counts(m: D.Machine, at: seq<Place>) {
    && (forall i | 0 <= i < |at| :: at[i].rank < |m| && at[i].unit < |m[at[i].rank]|)
    && (forall r, u | 0 <= r < |m| && 0 <= u < |m[r]| :: Place(r, u) in at)
    && (forall i, j | 0 <= i < j < |at| :: at[i] != at[j])
  }

  ghost function NumberOf(at: seq<Place>, x: Place): (i: nat)
    ensures x in at ==> i < |at| && at[i] == x
  {
    if x in at then (var i :| 0 <= i < |at| && at[i] == x; i) else |at|
  }

  function Home(p: Port): Place {
    Place(p.rank, p.unit)
  }

  /** Ports are wired in pairs between different units, and a unit has one port towards each unit it talks to. */
  ghost predicate PairWired(w: Wiring) {
    && (forall p | p in w :: w[p] in w && w[w[p]] == p && Home(w[p]) != Home(p))
    && (forall p, q | p in w && q in w && Home(p) == Home(q) && Home(w[p]) == Home(w[q]) :: p == q)
  }

  /** Port p of unit i leads to unit j. */
  ghost predicate Leads(w: Wiring, at: seq<Place>, i: nat, j: nat, p: Port) {
    i < |at| && j < |at| && p in w && Home(p) == at[i] && Home(w[p]) == at[j]
  }

  ghost function PeersOf(w: Wiring, at: seq<Place>, i: nat): set<nat> {
    set p | p in w && i < |at| && Home(p) == at[i] :: NumberOf(at, Home(w[p]))
  }

  /** What unit i has for unit j: the send buffer of its port towards j. */
  ghost function Outgoing(w: Wiring, at: seq<Place>, i: nat, j: nat, send: seq<seq<real>>): seq<real> {
    if exists p :: Leads(w, at, i, j, p) && p.link < |send| then
      var p :| Leads(w, at, i, j, p) && p.link < |send|;
      send[p.link]
    else []
  }

  /** The receive buffers once the messages are in them. */
  ghost function Filled(w: Wiring, at: seq<Place>, i: nat, d: D.Unit, ms: map<nat, seq<real>>): (b: seq<seq<real>>)
    ensures |b| == |d.recv|
  {
    seq(|d.recv|, l requires 0 <= l < |d.recv| => MessageFor(w, at, i, d, ms, l))
  }

  ghost function MessageFor(w: Wiring, at: seq<Place>, i: nat, d: D.Unit, ms: map<nat, seq<real>>, l: nat): seq<real>
    requires l < |d.recv|
  {
    if i < |at| && Port(at[i].rank, at[i].unit, l) in w then
      var v := NumberOf(at, Home(w[Port(at[i].rank, at[i].unit, l)]));
      if v in ms then ms[v] else d.recv[l]
    else d.recv[l]
  }

  /** A unit after WaitAllReceives, with its cut edges completed. */
  ghost function Completed(w: Wiring, at: seq<Place>, i: nat, d: D.Unit, ms: map<nat, seq<real>>): D.Unit {
    var d' := d.(recv := Filled(w, at, i, d, ms));
    if D.Announced(d') then D.ReceivedUnit(d') else d'
  }

  /** The round of messages that preprocessor_ompi runs after the numbering. */
  ghost function IndexRound(m: D.Machine, w: Wiring, at: seq<Place>, thread: seq<nat>): Config<D.Unit, seq<real>>
    requires D.Ready(m) && Counts(m, at)
  {
    var n := |at|;
    Config(seq(n, i requires 0 <= i < n => at[i].rank), seq(n, i requires 0 <= i < n => at[i].unit), thread,
           seq(n, i requires 0 <= i < n => PeersOf(w, at, i)),
           seq(n, i requires 0 <= i < n => D.NumberedUnit(m, at[i].rank, at[i].unit)), 1,
           (u: nat, r: nat, d: D.Unit) => d,
           (u: nat, v: nat, d: D.Unit) => Outgoing(w, at, u, v, d.send),
           (u: nat, r: nat, d: D.Unit) => d,
           (u: nat, r: nat, d: D.Unit, ms: map<nat, seq<real>>) => Completed(w, at, u, d, ms))
  }

  lemma IndexRoundFramed(m: D.Machine, w: Wiring, at: seq<Place>, thread: seq<nat>)
    requires D.Ready(m) && Counts(m, at)
    ensures IndexRound(m, w, at, thread).BuffersFramed()
  {
  }

  lemma PeerHasPort(w: Wiring, at: seq<Place>, i: nat, v: nat) returns (p: Port)
    requires v in PeersOf(w, at, i)
    ensures i < |at| && p in w && Home(p) == at[i] && v == NumberOf(at, Home(w[p]))
  {
    p :| p in w && i < |at| && Home(p) == at[i] && v == NumberOf(at, Home(w[p]));
  }

  lemma PortHasPeer(m: D.Machine, w: Wiring, at: seq<Place>, i: nat, p: Port)
    requires Coupled(m, w) && Counts(m, at) && PairWired(w) && i < |at| && p in w && Home(p) == at[i]
    ensures var v := NumberOf(at, Home(w[p]));
            v < |at| && v != i && v in PeersOf(w, at, i) && Leads(w, at, i, v, p) && Leads(w, at, v, i, w[p])
  {
    assert w[p].rank < |m| && w[p].unit < |m[w[p].rank]|;
    assert Place(w[p].rank, w[p].unit) in at;
  }

  /** The neighbours of the round are mutual, and its units are told apart by rank and number. */
  lemma IndexRoundWellFormed(m: D.Machine, w: Wiring, at: seq<Place>, thread: seq<nat>)
    requires Coupled(m, w) && Counts(m, at) && PairWired(w) && |thread| == |at|
    requires forall i | 0 <= i < |at| :: at[i].unit < 0x8000
    ensures IndexRound(m, w, at, thread).WellFormed()
  {
    var c := IndexRound(m, w, at, thread);
    forall u: nat, v: nat | c.Nbr(u, v)
      ensures v < |at| && v != u && c.Nbr(v, u)
    {
      var p := PeerHasPort(w, at, u, v);
      PortHasPeer(m, w, at, u, p);
      PortHasPeer(m, w, at, v, w[p]);
      SamePlace(at, u, NumberOf(at, Home(p)));
    }
  }

  lemma SamePlace(at: seq<Place>, i: nat, j: nat)
    requires i < |at| && j < |at| && at[i] == at[j] && forall i, j | 0 <= i < j < |at| :: at[i] != at[j]
    ensures i == j
  {
  }

  /** What a neighbour sends is the buffer at the far end of the port it is received through. */
  lemma SentThroughPort(m: D.Machine, w: Wiring, at: seq<Place>, i: nat, p: Port)
    requires Coupled(m, w) && Counts(m, at) && PairWired(w) && i < |at| && p in w && Home(p) == at[i]
    ensures var v := NumberOf(at, Home(w[p]));
            && v < |at| && w[p].link < |D.NumberedUnit(m, at[v].rank, at[v].unit).send|
            && Outgoing(w, at, v, i, D.NumberedUnit(m, at[v].rank, at[v].unit).send)
            == D.NumberedUnit(m, at[v].rank, at[v].unit).send[w[p].link]
  {
    PortHasPeer(m, w, at, i, p);
    var v := NumberOf(at, Home(w[p]));
    var d := D.NumberedUnit(m, at[v].rank, at[v].unit);
    assert Leads(w, at, v, i, w[p]) && w[p].link < |d.send|;
    forall q | Leads(w, at, v, i, q)
      ensures q == w[p]
    {
      assert Home(q) == Home(w[p]) && Home(w[q]) == Home(w[w[p]]);
    }
  }

  /** The messages of the round are exactly what the wiring delivers. */
  lemma FilledIsArrived(m: D.Machine, w: Wiring, at: seq<Place>, thread: seq<nat>, i: nat)
    requires Coupled(m, w) && Counts(m, at) && PairWired(w) && i < |at| && IndexRound(m, w, at, thread).WellFormed()
    ensures Filled(w, at, i, D.NumberedUnit(m, at[i].rank, at[i].unit), Messages(IndexRound(m, w, at, thread), 0, i))
         == Arrived(m, w, at[i].rank, at[i].unit)
  {
    var c, r, u := IndexRound(m, w, at, thread), at[i].rank, at[i].unit;
    var d, ms := D.NumberedUnit(m, r, u), Messages(c, 0, i);
    forall l | 0 <= l < |d.recv|
      ensures MessageFor(w, at, i, d, ms, l) == Arrived(m, w, r, u)[l]
    {
      var p := Port(r, u, l);
      if p in w {
        SentThroughPort(m, w, at, i, p);
        PortHasPeer(m, w, at, i, p);
        var v := NumberOf(at, Home(w[p]));
        assert c.Nbr(i, v) && ms[v] == c.out(v, i, Packed(c, 0, v));
      }
    }
  }

  /** Then no follower misses its announcement. */
  lemma AllAnnounced(m: D.Machine, w: Wiring, r: nat, u: nat)
    requires Coupled(m, w) && r < |m| && u < |m[r]|
    ensures D.Announced(D.NumberedUnit(m, r, u).(recv := Arrived(m, w, r, u)))
  {
    var d := D.NumberedUnit(m, r, u);
    forall k | 0 <= k < |d.distributeds|
      ensures D.AnnouncedTo(d.distributeds[k], Arrived(m, w, r, u))
    {
      NumberedShape(m, r, u);
      NumberedDistributedEdge(m, EdgeRef(r, u, k));
      FollowerHears(m, w, EdgeRef(r, u, k));
      assert HasMate(m, w, EdgeRef(r, u, k));
    }
  }

  lemma NumberedShape(m: D.Machine, r: nat, u: nat)
    requires D.Ready(m) && r < |m| && u < |m[r]|
    ensures |D.NumberedUnit(m, r, u).distributeds| == |m[r][u].distributeds|
    ensures D.NumberedUnit(m, r, u).recv == m[r][u].recv
  {
  }

  /**
   However threads and messages interleave: when the round has finished, every unit's receive buffers hold what the
   wiring delivers, and its cut edges are the completed ones.
   */
  lemma RoundDelivers(m: D.Machine, w: Wiring, at: seq<Place>, thread: seq<nat>, run: seq<State<D.Unit, seq<real>>>,
                      moves: seq<Move>, i: nat)
    requires Coupled(m, w) && Counts(m, at) && PairWired(w) && i < |at|
    requires Run(IndexRound(m, w, at, thread), run, moves) && Finished(IndexRound(m, w, at, thread), run[|moves|])
    ensures i < |run[|moves|].data|
    ensures var d, r, u := run[|moves|].data[i], at[i].rank, at[i].unit;
            && d.recv == Arrived(m, w, r, u) && |d.distributeds| == |m[r][u].distributeds|
            && forall k | 0 <= k < |d.distributeds| :: d.distributeds[k] == FinalEdge(m, w, EdgeRef(r, u, k))
  {
    var c, r, u := IndexRound(m, w, at, thread), at[i].rank, at[i].unit;
    EveryInterleavingAgrees(c, run, moves, i);
    FilledIsArrived(m, w, at, thread, i);
    AllAnnounced(m, w, r, u);
    NumberedShape(m, r, u);
    assert Sync(c, 1, i) == Completed(w, at, i, D.NumberedUnit(m, r, u), Messages(c, 0, i));
  }

  /** Then the two sides of every cut edge hold one index vector, which exactly one of them numbered. */
  lemma MatesAgreeAfterRound(m: D.Machine, w: Wiring, at: seq<Place>, thread: seq<nat>,
                             run: seq<State<D.Unit, seq<real>>>, moves: seq<Move>, i: nat, d: nat, v: nat, d': nat)
    requires Coupled(m, w) && Counts(m, at) && PairWired(w) && i < |at| && v < |at|
    requires Mates(m, w, EdgeRef(at[i].rank, at[i].unit, d), EdgeRef(at[v].rank, at[v].unit, d'))
    requires Run(IndexRound(m, w, at, thread), run, moves) && Finished(IndexRound(m, w, at, thread), run[|moves|])
    ensures i < |run[|moves|].data| && v < |run[|moves|].data|
    ensures OneVector(run[|moves|].data[i], d, run[|moves|].data[v], d',
                      Edge(m, EdgeRef(at[i].rank, at[i].unit, d)).ndof)
  {
    var e, f := EdgeRef(at[i].rank, at[i].unit, d), EdgeRef(at[v].rank, at[v].unit, d');
    RoundDelivers(m, w, at, thread, run, moves, i);
    RoundDelivers(m, w, at, thread, run, moves, v);
    assert run[|moves|].data[i].distributeds[d] == FinalEdge(m, w, e);
    assert run[|moves|].data[v].distributeds[d'] == FinalEdge(m, w, f);
    FinalPair(m, w, e, f);
  }

  /** Two edges hold the same vector, each in the edge and in its boundary; one of them is its owner. */
  ghost predicate OneVector(x: D.Unit, d: nat, y: D.Unit, d': nat, ndof: nat) {
    && d < |x.distributeds| && d' < |y.distributeds|
    && SameVector(x.distributeds[d], y.distributeds[d'], ndof)
  }

  ghost predicate SameVector(e: D.DistributedEdge, f: D.DistributedEdge, ndof: nat) {
    && e.indx == e.bound == f.indx == f.bound && |e.indx| == D.Width(ndof)
    && e.exchanger.Owner() != f.exchanger.Owner()
  }

  lemma FinalPair(m: D.Machine, w: Wiring, e: EdgeRef, f: EdgeRef)
    requires Coupled(m, w) && Mates(m, w, e, f)
    ensures SameVector(FinalEdge(m, w, e), FinalEdge(m, w, f), Edge(m, e).ndof)
  {
    assert Mates(m, w, f, e);
    CutEdgeAgrees(m, w, e, f);
    CutEdgeAgrees(m, w, f, e);
    NumberedDistributedEdge(m, e);
    NumberedDistributedEdge(m, f);
  }
}
