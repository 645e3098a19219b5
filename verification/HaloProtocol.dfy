/**
 The round-based halo exchange of compute_bathymetry_derivatives_ompi as a state machine.  Every sim
 unit runs, round after round, ReceiveAll / pack / SendAll / local work / WaitAllReceives and unpack /
 WaitAllSends on persistent requests over one reused send buffer per neighbour; a thread drives its
 units in order, phase by phase.  The data and what pack, local work and unpack do to it are parameters.
 */
module HaloProtocol {

  // ----- message tags -----

  const USHORT: nat := 0x1_0000
  const INT_SIGN: nat := 0x8000_0000
  const UINT: nat := 0x1_0000_0000

  /** (int)((unsigned short)a << 16 | (unsigned short)b) on 32-bit two's complement. */
  function Tag(a: nat, b: nat): int {
    var bits := (a % USHORT) * USHORT + b % USHORT;
    if bits < INT_SIGN then bits else bits - UINT
  }

  /** A tag is non-negative exactly when the first submesh id has its sixteenth bit clear. */
  lemma TagIsNonNegativeIff(a: nat, b: nat)
    ensures Tag(a, b) >= 0 <==> a % USHORT < 0x8000
  {
  }

  /** Equal tags come from equal id pairs exactly up to truncation to sixteen bits. */
  lemma TagInjectiveIff(a: nat, b: nat, c: nat, d: nat)
    ensures Tag(a, b) == Tag(c, d) <==> a % USHORT == c % USHORT && b % USHORT == d % USHORT
  {
  }

  /** A message channel: source rank, destination rank and tag. */
  datatype Key = Key(source: nat, dest: nat, tag: int)

  // ----- the machine -----

  /** What a run is made of.  Unit numbers are machine-wide; nbrs are the units a unit shares a rank boundary with. */
  datatype Config<!D(!new), !M(!new)> = Config(
    rank: seq<nat>, submesh: seq<nat>, thread: seq<nat>, nbrs: seq<set<nat>>, init: seq<D>, rounds: nat,
    pack: (nat, nat, D) -> D,
    out: (nat, nat, D) -> M,
    local: (nat, nat, D) -> D,
    unpack: (nat, nat, D, map<nat, M>) -> D)
  {
    function Units(): nat {
      |rank|
    }

    /** The channel from unit u to unit v, as the sender builds it. */
    function SendKey(u: nat, v: nat): Key
      requires u < |rank| == |submesh| && v < |rank|
    {
      Key(rank[u], rank[v], Tag(submesh[u], submesh[v]))
    }

    /** The channel unit u listens on for unit v: send and receive ranks are both v's, the tag has the ids swapped. */
    function ReceiveKey(u: nat, v: nat): Key
      requires u < |rank| == |submesh| && v < |rank|
    {
      Key(rank[v], rank[u], Tag(submesh[v], submesh[u]))
    }

    predicate Nbr(u: nat, v: nat) {
      u < |nbrs| && v in nbrs[u]
    }

    /** Neighbourhood is symmetric and irreflexive, and (rank, submesh) names a unit; ids stay below 2^15. */
    ghost predicate WellFormed() {
      && |rank| == |submesh| == |thread| == |nbrs| == |init|
      && (forall u: nat, v: nat | Nbr(u, v) :: v < |rank| && v != u && Nbr(v, u))
      && (forall u | 0 <= u < |rank| :: submesh[u] < 0x8000)
      && (forall u, v | 0 <= u < v < |rank| :: rank[u] != rank[v] || submesh[u] != submesh[v])
    }

    /** Local work and unpacking leave the outgoing buffers alone. */
    ghost predicate BuffersFramed() {
      && (forall u, v, r, d {:trigger out(u, v, local(u, r, d))} :: out(u, v, local(u, r, d)) == out(u, v, d))
      && (forall u, v, r, d, ms {:trigger out(u, v, unpack(u, r, d, ms))} ::
            out(u, v, unpack(u, r, d, ms)) == out(u, v, d))
    }
  }

  /**
   One channel.  Counters of started sends, sends whose buffer has left, posted receives and deliveries;
   the messages that left the sender, in order; and what the receive buffer holds, if anything arrived yet.
   */
  datatype Chan<M> = Chan(started: nat, left: nat, posted: nat, delivered: nat, net: seq<M>, inbox: seq<M>)

  /** How far a unit is: action counts the actions done in this round. */
  datatype Pos = Pos(round: nat, action: nat)

  datatype State<!D, !M> = State(pos: seq<Pos>, data: seq<D>, chan: Key -> Chan<M>)

  const POST_RECEIVES: nat := 0
  const PACK: nat := 1
  const START_SENDS: nat := 2
  const LOCAL: nat := 3
  const WAIT_RECEIVES: nat := 4
  const WAIT_SENDS: nat := 5

  lemma KeysAgree<D(!new), M(!new)>(c: Config<D, M>, u: nat, v: nat)
    requires c.WellFormed() && u < c.Units() && v < c.Units()
    ensures c.SendKey(u, v) == c.ReceiveKey(v, u)
  {
  }

  /** Different ordered pairs of units never share a channel. */
  lemma KeyInjective<D(!new), M(!new)>(c: Config<D, M>, u: nat, v: nat, u': nat, v': nat)
    requires c.WellFormed() && u < c.Units() && v < c.Units() && u' < c.Units() && v' < c.Units()
    requires c.SendKey(u, v) == c.SendKey(u', v')
    ensures u == u' && v == v'
  {
    TagInjectiveIff(c.submesh[u], c.submesh[v], c.submesh[u'], c.submesh[v']);
  }

  // ----- what the rounds should compute, all units in lock step -----

  /** Unit u's data at the start of round r. */
  ghost function Sync<D(!new), M(!new)>(c: Config<D, M>, r: nat, u: nat): D
    requires c.WellFormed() && u < c.Units()
    decreases r, 0
  {
    if r == 0 then c.init[u] else
      c.unpack(u, r - 1, c.local(u, r - 1, Packed(c, r - 1, u)), Messages(c, r - 1, u))
  }

  /** Unit u's data in round r once its send buffers are filled. */
  ghost function Packed<D(!new), M(!new)>(c: Config<D, M>, r: nat, u: nat): D
    requires c.WellFormed() && u < c.Units()
    decreases r, 1
  {
    c.pack(u, r, Sync(c, r, u))
  }

  /** What unit u's neighbours have for it in round r. */
  ghost function Messages<D(!new), M(!new)>(c: Config<D, M>, r: nat, u: nat): map<nat, M>
    requires c.WellFormed() && u < c.Units()
    decreases r, 2
  {
    map v | v in c.nbrs[u] && c.Nbr(u, v) :: c.out(v, u, Packed(c, r, v))
  }

  // ----- steps -----

  ghost predicate Init<D(!new), M(!new)>(c: Config<D, M>, s: State<D, M>) {
    && c.WellFormed() && c.BuffersFramed()
    && |s.pos| == c.Units() && (forall u | 0 <= u < c.Units() :: s.pos[u] == Pos(0, 0))
    && s.data == c.init
    && forall k :: s.chan(k) == Chan(0, 0, 0, 0, [], [])
  }

  ghost predicate Shaped<D(!new), M(!new)>(c: Config<D, M>, s: State<D, M>) {
    c.WellFormed() && c.BuffersFramed() && |s.pos| == |s.data| == c.Units()
  }

  /** The receives one MPI_Startall of unit u posts, and the sends one starts. */
  ghost function ReceiveKeys<D(!new), M(!new)>(c: Config<D, M>, u: nat): set<Key>
    requires c.WellFormed() && u < c.Units()
  {
    set v | v in c.nbrs[u] && c.Nbr(u, v) :: c.ReceiveKey(u, v)
  }

  ghost function SendKeys<D(!new), M(!new)>(c: Config<D, M>, u: nat): set<Key>
    requires c.WellFormed() && u < c.Units()
  {
    set v | v in c.nbrs[u] && c.Nbr(u, v) :: c.SendKey(u, v)
  }

  /** The contents of unit u's receive buffers. */
  ghost function Inboxes<D(!new), M(!new)>(c: Config<D, M>, s: State<D, M>, u: nat): map<nat, M>
    requires Shaped(c, s) && u < c.Units()
  {
    map v | v in c.nbrs[u] && c.Nbr(u, v) && |s.chan(c.ReceiveKey(u, v)).inbox| > 0
      :: s.chan(c.ReceiveKey(u, v)).inbox[0]
  }

  /**
   A unit's next action, the departure of a send buffer's contents into the network, or a delivery into a
   posted receive buffer.  A send may leave before its receive is posted (eager) or not (rendezvous).
   */
  datatype Move = Act(u: nat) | Leave(u: nat, v: nat) | Deliver(u: nat, v: nat)

  ghost predicate Can<D(!new), M(!new)>(c: Config<D, M>, s: State<D, M>, move: Move)
    requires Shaped(c, s)
  {
    match move
    case Act(u) =>
      && u < c.Units() && s.pos[u].round < c.rounds
      && (s.pos[u].action == WAIT_RECEIVES ==>
            forall k | k in ReceiveKeys(c, u) :: s.chan(k).delivered == s.chan(k).posted)
      && (s.pos[u].action == WAIT_SENDS ==>
            forall k | k in SendKeys(c, u) :: s.chan(k).left == s.chan(k).started)
    case Leave(u, v) =>
      c.Nbr(u, v) && s.chan(c.SendKey(u, v)).left < s.chan(c.SendKey(u, v)).started
    case Deliver(u, v) =>
      && c.Nbr(u, v)
      && var ch := s.chan(c.SendKey(u, v));
         ch.delivered < ch.posted && ch.delivered < ch.left && ch.delivered < |ch.net|
  }

  ghost function NextPos(p: Pos): Pos {
    if p.action == WAIT_SENDS then Pos(p.round + 1, POST_RECEIVES) else Pos(p.round, p.action + 1)
  }

  ghost function NextData<D(!new), M(!new)>(c: Config<D, M>, s: State<D, M>, u: nat): D
    requires Shaped(c, s) && u < c.Units()
  {
    var p := s.pos[u];
    if p.action == PACK then c.pack(u, p.round, s.data[u])
    else if p.action == LOCAL then c.local(u, p.round, s.data[u])
    else if p.action == WAIT_RECEIVES then c.unpack(u, p.round, s.data[u], Inboxes(c, s, u))
    else s.data[u]
  }

  ghost function NextChan<D(!new), M(!new)>(c: Config<D, M>, s: State<D, M>, u: nat): Key -> Chan<M>
    requires Shaped(c, s) && u < c.Units()
  {
    var action := s.pos[u].action;
    if action == POST_RECEIVES then
      k => if k in ReceiveKeys(c, u) then s.chan(k).(posted := s.chan(k).posted + 1) else s.chan(k)
    else if action == START_SENDS then
      k => if k in SendKeys(c, u) then s.chan(k).(started := s.chan(k).started + 1) else s.chan(k)
    else s.chan
  }

  ghost function Apply<D(!new), M(!new)>(c: Config<D, M>, s: State<D, M>, move: Move): State<D, M>
    requires Shaped(c, s) && Can(c, s, move)
  {
    match move
    case Act(u) =>
      State(s.pos[u := NextPos(s.pos[u])], s.data[u := NextData(c, s, u)], NextChan(c, s, u))
    case Leave(u, v) =>
      var key, ch := c.SendKey(u, v), s.chan(c.SendKey(u, v));
      s.(chan := k => if k == key then ch.(left := ch.left + 1, net := ch.net + [c.out(u, v, s.data[u])])
         else s.chan(k))
    case Deliver(u, v) =>
      var key, ch := c.SendKey(u, v), s.chan(c.SendKey(u, v));
      s.(chan := k => if k == key then ch.(delivered := ch.delivered + 1, inbox := [ch.net[ch.delivered]])
         else s.chan(k))
  }

  // ----- the invariant -----

  /** What the lock-step rounds say unit u's data is at position p. */
  ghost function Expected<D(!new), M(!new)>(c: Config<D, M>, u: nat, p: Pos): D
    requires c.WellFormed() && u < c.Units()
  {
    if p.action <= PACK then Sync(c, p.round, u)
    else if p.action <= LOCAL then Packed(c, p.round, u)
    else if p.action == WAIT_RECEIVES then c.local(u, p.round, Packed(c, p.round, u))
    else Sync(c, p.round + 1, u)
  }

  ghost function Count(p: Pos, action: nat): nat {
    if p.action > action then p.round + 1 else p.round
  }

  /** The rounds whose messages a unit has unpacked. */
  ghost function Unpacked(p: Pos): nat {
    Count(p, WAIT_RECEIVES)
  }

  /** The channel from u to v agrees with how far both ends are, and holds only round-exact messages. */
  ghost predicate ChanInv<D(!new), M(!new)>(c: Config<D, M>, u: nat, v: nat, p: Pos, q: Pos, ch: Chan<M>)
    requires c.WellFormed() && u < c.Units()
  {
    && ch.started == Count(p, START_SENDS)
    && ch.posted == Count(q, POST_RECEIVES)
    && ch.left <= ch.started <= ch.left + 1 && ch.delivered <= ch.left
    && ch.delivered <= ch.posted <= ch.delivered + 1
    && (p.action <= START_SENDS ==> ch.left == ch.started)
    && (q.action == POST_RECEIVES || q.action == WAIT_SENDS ==> ch.delivered == ch.posted)
    && |ch.net| == ch.left
    && (forall k | 0 <= k < ch.left :: ch.net[k] == c.out(u, v, Packed(c, k, u)))
    && (ch.delivered > 0 ==> ch.inbox == [ch.net[ch.delivered - 1]])
  }

  ghost predicate UnitInv<D(!new), M(!new)>(c: Config<D, M>, s: State<D, M>, u: nat)
    requires Shaped(c, s) && u < c.Units()
  {
    && s.pos[u].action <= WAIT_SENDS
    && (s.pos[u].round < c.rounds || s.pos[u] == Pos(c.rounds, 0))
    && s.data[u] == Expected(c, u, s.pos[u])
  }

  ghost predicate PairInv<D(!new), M(!new)>(c: Config<D, M>, s: State<D, M>, u: nat, v: nat)
    requires Shaped(c, s) && c.Nbr(u, v)
  {
    ChanInv(c, u, v, s.pos[u], s.pos[v], s.chan(c.SendKey(u, v)))
  }

  ghost predicate Inv<D(!new), M(!new)>(c: Config<D, M>, s: State<D, M>) {
    && Shaped(c, s)
    && (forall u | 0 <= u < c.Units() :: UnitInv(c, s, u))
    && (forall u, v | c.Nbr(u, v) :: PairInv(c, s, u, v))
  }

  lemma InitInv<D(!new), M(!new)>(c: Config<D, M>, s: State<D, M>)
    requires Init(c, s)
    ensures Inv(c, s)
  {
  }

  /** A channel belongs to a unit's receives or sends only if the unit is its end. */
  lemma KeyOwners<D(!new), M(!new)>(c: Config<D, M>, u: nat, v: nat, x: nat)
    requires c.WellFormed() && c.Nbr(u, v) && x < c.Units()
    ensures c.SendKey(u, v) in ReceiveKeys(c, x) <==> x == v
    ensures c.SendKey(u, v) in SendKeys(c, x) <==> x == u
  {
    if c.SendKey(u, v) in ReceiveKeys(c, x) {
      var w :| w in c.nbrs[x] && c.Nbr(x, w) && c.SendKey(u, v) == c.ReceiveKey(x, w);
      KeyInjective(c, u, v, w, x);
    }
    if c.SendKey(u, v) in SendKeys(c, x) {
      var w :| w in c.nbrs[x] && c.Nbr(x, w) && c.SendKey(u, v) == c.SendKey(x, w);
      KeyInjective(c, u, v, x, w);
    }
    assert c.Nbr(v, u) && c.SendKey(u, v) == c.ReceiveKey(v, u);
  }

  /** While a send may be in flight, the sender's buffer still holds this round's message. */
  lemma BufferHoldsRound<D(!new), M(!new)>(c: Config<D, M>, s: State<D, M>, u: nat, v: nat)
    requires Shaped(c, s) && u < c.Units() && UnitInv(c, s, u)
    requires s.pos[u].action > START_SENDS
    ensures c.out(u, v, s.data[u]) == c.out(u, v, Packed(c, s.pos[u].round, u))
  {
  }

  lemma ReceiveIsRoundExact<D(!new), M(!new)>(c: Config<D, M>, s: State<D, M>, u: nat, v: nat)
    requires Inv(c, s) && Can(c, s, Act(u)) && s.pos[u].action == WAIT_RECEIVES && c.Nbr(u, v)
    ensures s.chan(c.ReceiveKey(u, v)).inbox == [c.out(v, u, Packed(c, s.pos[u].round, v))]
  {
    assert c.Nbr(v, u) && PairInv(c, s, v, u);
    KeyOwners(c, v, u, u);
  }

  /** When WaitAllReceives returns in round r, the buffers hold exactly the neighbours' round-r messages. */
  lemma ReceivesAreRoundExact<D(!new), M(!new)>(c: Config<D, M>, s: State<D, M>, u: nat)
    requires Inv(c, s) && Can(c, s, Act(u)) && s.pos[u].action == WAIT_RECEIVES
    ensures Inboxes(c, s, u) == Messages(c, s.pos[u].round, u)
  {
    forall v | v in c.nbrs[u] && c.Nbr(u, v)
      ensures s.chan(c.ReceiveKey(u, v)).inbox == [c.out(v, u, Packed(c, s.pos[u].round, v))]
    {
      ReceiveIsRoundExact(c, s, u, v);
    }
  }

  lemma ActKeepsUnit<D(!new), M(!new)>(c: Config<D, M>, s: State<D, M>, u: nat)
    requires Inv(c, s) && Can(c, s, Act(u))
    ensures UnitInv(c, Apply(c, s, Act(u)), u)
  {
    assert UnitInv(c, s, u);
    if s.pos[u].action == WAIT_RECEIVES {
      ReceivesAreRoundExact(c, s, u);
    }
  }

  lemma ActKeepsPair<D(!new), M(!new)>(c: Config<D, M>, s: State<D, M>, x: nat, u: nat, v: nat)
    requires Inv(c, s) && Can(c, s, Act(x)) && c.Nbr(u, v)
    ensures PairInv(c, Apply(c, s, Act(x)), u, v)
  {
    assert PairInv(c, s, u, v);
    KeyOwners(c, u, v, x);
  }

  lemma LeaveKeepsPair<D(!new), M(!new)>(c: Config<D, M>, s: State<D, M>, x: nat, y: nat, u: nat, v: nat)
    requires Inv(c, s) && Can(c, s, Leave(x, y)) && c.Nbr(u, v)
    ensures PairInv(c, Apply(c, s, Leave(x, y)), u, v)
  {
    assert PairInv(c, s, u, v);
    if c.SendKey(u, v) == c.SendKey(x, y) {
      KeyInjective(c, u, v, x, y);
      BufferHoldsRound(c, s, u, v);
    }
  }

  lemma DeliverKeepsPair<D(!new), M(!new)>(c: Config<D, M>, s: State<D, M>, x: nat, y: nat, u: nat, v: nat)
    requires Inv(c, s) && Can(c, s, Deliver(x, y)) && c.Nbr(u, v)
    ensures PairInv(c, Apply(c, s, Deliver(x, y)), u, v)
  {
    assert PairInv(c, s, u, v);
    if c.SendKey(u, v) == c.SendKey(x, y) {
      KeyInjective(c, u, v, x, y);
    }
  }

  /** Every step keeps the invariant. */
  lemma StepInv<D(!new), M(!new)>(c: Config<D, M>, s: State<D, M>, move: Move)
    requires Inv(c, s) && Can(c, s, move)
    ensures Inv(c, Apply(c, s, move))
  {
    var s' := Apply(c, s, move);
    forall u | 0 <= u < c.Units()
      ensures UnitInv(c, s', u)
    {
      assert UnitInv(c, s, u);
      if move == Act(u) {
        ActKeepsUnit(c, s, u);
      }
    }
    forall u, v | c.Nbr(u, v)
      ensures PairInv(c, s', u, v)
    {
      match move
      case Act(x) => ActKeepsPair(c, s, x, u, v);
      case Leave(x, y) => LeaveKeepsPair(c, s, x, y, u, v);
      case Deliver(x, y) => DeliverKeepsPair(c, s, x, y, u, v);
    }
  }

  // ----- whole runs -----

  /** A run: any interleaving of unit actions, departures and deliveries. */
  ghost predicate Run<D(!new), M(!new)>(c: Config<D, M>, run: seq<State<D, M>>, moves: seq<Move>) {
    && |run| == |moves| + 1
    && Init(c, run[0])
    && forall i | 0 <= i < |moves| :: Stepped(c, run[i], moves[i], run[i + 1])
  }

  ghost predicate Stepped<D(!new), M(!new)>(c: Config<D, M>, s: State<D, M>, move: Move, s': State<D, M>) {
    Shaped(c, s) && Can(c, s, move) && s' == Apply(c, s, move)
  }

  lemma {:induction false} RunInv<D(!new), M(!new)>(c: Config<D, M>, run: seq<State<D, M>>, moves: seq<Move>, i: nat)
    requires Run(c, run, moves) && i < |run|
    ensures Inv(c, run[i])
  {
    if i == 0 {
      InitInv(c, run[0]);
    } else {
      RunInv(c, run, moves, i - 1);
      assert Stepped(c, run[i - 1], moves[i - 1], run[i]);
      StepInv(c, run[i - 1], moves[i - 1]);
    }
  }

  ghost predicate Finished<D(!new), M(!new)>(c: Config<D, M>, s: State<D, M>) {
    forall u | 0 <= u < |s.pos| :: s.pos[u].round == c.rounds
  }

  /** Whatever the interleaving, a finished run has computed what the rounds compute in lock step. */
  lemma EveryInterleavingAgrees<D(!new), M(!new)>(c: Config<D, M>, run: seq<State<D, M>>, moves: seq<Move>, u: nat)
    requires Run(c, run, moves) && Finished(c, run[|moves|]) && u < c.Units()
    ensures u < |run[|moves|].data| && run[|moves|].data[u] == Sync(c, c.rounds, u)
  {
    RunInv(c, run, moves, |moves|);
    assert UnitInv(c, run[|moves|], u);
  }

  /** No step of any unit rewrites a send buffer between the start of its send and the moment its contents left. */
  lemma InFlightBufferUntouched<D(!new), M(!new)>(c: Config<D, M>, s: State<D, M>, move: Move, u: nat, v: nat)
    requires Inv(c, s) && Can(c, s, move) && c.Nbr(u, v)
    requires s.chan(c.SendKey(u, v)).left < s.chan(c.SendKey(u, v)).started
    ensures c.out(u, v, Apply(c, s, move).data[u]) == c.out(u, v, s.data[u])
  {
    assert PairInv(c, s, u, v);
  }

  /**
   A receive buffer is overwritten only while its owner waits for it, never between unpacking and the next post, and
   then it gets the message of its owner's round.
   */
  lemma DeliveryOnlyIntoPostedBuffer<D(!new), M(!new)>(c: Config<D, M>, s: State<D, M>, u: nat, v: nat)
    requires Inv(c, s) && Can(c, s, Deliver(u, v))
    ensures POST_RECEIVES < s.pos[v].action <= WAIT_RECEIVES
    ensures s.chan(c.SendKey(u, v)).delivered == s.pos[v].round
    ensures Apply(c, s, Deliver(u, v)).chan(c.SendKey(u, v)).inbox == [c.out(u, v, Packed(c, s.pos[v].round, u))]
  {
    assert PairInv(c, s, u, v);
    assert UnitInv(c, s, v);
  }

  /** MPI_Startall is only called on requests that are not active. */
  lemma StartsOnlyInactiveRequests<D(!new), M(!new)>(c: Config<D, M>, s: State<D, M>, u: nat, v: nat)
    requires Inv(c, s) && u < c.Units() && c.Nbr(u, v)
    ensures s.pos[u].action == POST_RECEIVES ==>
              s.chan(c.ReceiveKey(u, v)).posted == s.chan(c.ReceiveKey(u, v)).delivered
    ensures s.pos[u].action == START_SENDS ==>
              s.chan(c.SendKey(u, v)).started == s.chan(c.SendKey(u, v)).left
  {
    assert PairInv(c, s, u, v);
    assert c.Nbr(v, u) && PairInv(c, s, v, u);
  }

  // ----- threads and deadlock freedom -----

  /** The phases of a round: start everything, local work, receives, sends. */
  ghost function PhaseStart(p: Pos): Pos {
    if p.action <= START_SENDS then Pos(p.round, POST_RECEIVES) else p
  }

  ghost function PhaseEnd(p: Pos): Pos {
    if p.action <= START_SENDS then Pos(p.round, LOCAL) else NextPos(p)
  }

  ghost predicate Leq(p: Pos, q: Pos) {
    p.round < q.round || (p.round == q.round && p.action <= q.action)
  }

  /** The thread of unit u has nothing else to do first: units before u are done with this phase, units after u wait. */
  ghost predicate Turn<D(!new), M(!new)>(c: Config<D, M>, s: State<D, M>, u: nat)
    requires Shaped(c, s) && u < c.Units()
  {
    forall w | 0 <= w < c.Units() && c.thread[w] == c.thread[u] && w != u ::
      if w < u then Leq(PhaseEnd(s.pos[u]), s.pos[w]) else Leq(s.pos[w], PhaseStart(s.pos[u]))
  }

  /**
   The moves a real execution can make: a unit acts only in its thread's order, and a message may be held back
   until its receive is posted.
   */
  ghost predicate ThreadCan<D(!new), M(!new)>(c: Config<D, M>, s: State<D, M>, move: Move)
    requires Shaped(c, s)
  {
    && Can(c, s, move)
    && (move.Act? ==> Turn(c, s, move.u))
    && (move.Leave? ==> s.chan(c.SendKey(move.u, move.v)).left < s.chan(c.SendKey(move.u, move.v)).posted)
  }

  /** Later units of a thread are at most at the start of the phase an earlier unit is in. */
  ghost predicate ThreadOrder<D(!new), M(!new)>(c: Config<D, M>, s: State<D, M>)
    requires Shaped(c, s)
  {
    forall w, u | 0 <= w < u < c.Units() && c.thread[w] == c.thread[u] :: Leq(s.pos[u], PhaseStart(s.pos[w]))
  }

  lemma StepThreadOrder<D(!new), M(!new)>(c: Config<D, M>, s: State<D, M>, move: Move)
    requires Inv(c, s) && ThreadOrder(c, s)
    requires Can(c, s, move) && (move.Act? ==> Turn(c, s, move.u))
    ensures Shaped(c, Apply(c, s, move)) && ThreadOrder(c, Apply(c, s, move))
  {
    var s' := Apply(c, s, move);
    forall w, u | 0 <= w < u < c.Units() && c.thread[w] == c.thread[u]
      ensures Leq(s'.pos[u], PhaseStart(s'.pos[w]))
    {
      assert UnitInv(c, s, u) && UnitInv(c, s, w);
    }
  }

  /** Phase numbers order the whole schedule. */
  ghost function Phase(p: Pos): nat {
    4 * p.round + (if p.action <= START_SENDS then 0 else p.action - START_SENDS)
  }

  /** Some unit is in the earliest phase, and no earlier unit is. */
  lemma {:induction false} EarliestPhase(pos: seq<Pos>) returns (u: nat)
    requires |pos| > 0
    ensures u < |pos|
    ensures forall w | 0 <= w < |pos| :: Phase(pos[u]) <= Phase(pos[w])
    ensures forall w | 0 <= w < u :: Phase(pos[u]) < Phase(pos[w])
  {
    u := 0;
    for i := 1 to |pos|
      invariant u < i
      invariant forall w | 0 <= w < i :: Phase(pos[u]) <= Phase(pos[w])
      invariant forall w | 0 <= w < u :: Phase(pos[u]) < Phase(pos[w])
    {
      if Phase(pos[i]) < Phase(pos[u]) {
        u := i;
      }
    }
  }

  lemma EarliestHasTurn<D(!new), M(!new)>(c: Config<D, M>, s: State<D, M>, u: nat)
    requires Inv(c, s) && ThreadOrder(c, s) && u < c.Units()
    requires forall w | 0 <= w < |s.pos| :: Phase(s.pos[u]) <= Phase(s.pos[w])
    requires forall w | 0 <= w < u :: Phase(s.pos[u]) < Phase(s.pos[w])
    ensures Turn(c, s, u)
  {
    assert UnitInv(c, s, u);
    forall w | 0 <= w < c.Units() && c.thread[w] == c.thread[u] && w != u
      ensures if w < u then Leq(PhaseEnd(s.pos[u]), s.pos[w]) else Leq(s.pos[w], PhaseStart(s.pos[u]))
    {
      assert UnitInv(c, s, w);
    }
  }

  lemma ReceiveCanProgress<D(!new), M(!new)>(c: Config<D, M>, s: State<D, M>, u: nat) returns (move: Move)
    requires Inv(c, s) && u < c.Units() && s.pos[u].action == WAIT_RECEIVES && s.pos[u].round < c.rounds
    requires forall w | 0 <= w < |s.pos| :: Phase(s.pos[u]) <= Phase(s.pos[w])
    requires !Can(c, s, Act(u))
    ensures !move.Act? && ThreadCan(c, s, move)
  {
    var k :| k in ReceiveKeys(c, u) && s.chan(k).delivered != s.chan(k).posted;
    var v :| v in c.nbrs[u] && c.Nbr(u, v) && k == c.ReceiveKey(u, v);
    assert c.Nbr(v, u) && PairInv(c, s, v, u) && UnitInv(c, s, v);
    move := if s.chan(k).delivered < s.chan(k).left then Deliver(v, u) else Leave(v, u);
  }

  lemma SendCanProgress<D(!new), M(!new)>(c: Config<D, M>, s: State<D, M>, u: nat) returns (move: Move)
    requires Inv(c, s) && u < c.Units() && s.pos[u].action == WAIT_SENDS && s.pos[u].round < c.rounds
    requires forall w | 0 <= w < |s.pos| :: Phase(s.pos[u]) <= Phase(s.pos[w])
    requires !Can(c, s, Act(u))
    ensures !move.Act? && ThreadCan(c, s, move)
  {
    var k :| k in SendKeys(c, u) && s.chan(k).left != s.chan(k).started;
    var v :| v in c.nbrs[u] && c.Nbr(u, v) && k == c.SendKey(u, v);
    assert PairInv(c, s, u, v) && UnitInv(c, s, v) && v < |s.pos|;
    move := Leave(u, v);
  }

  /** No reachable state is deadlocked: until every unit has finished, some move is possible. */
  lemma NoDeadlock<D(!new), M(!new)>(c: Config<D, M>, s: State<D, M>) returns (move: Move)
    requires Inv(c, s) && ThreadOrder(c, s) && !Finished(c, s)
    ensures ThreadCan(c, s, move)
  {
    var u := EarliestPhase(s.pos);
    EarliestHasTurn(c, s, u);
    assert UnitInv(c, s, u);
    var w :| 0 <= w < |s.pos| && s.pos[w].round != c.rounds;
    assert UnitInv(c, s, w);
    if Can(c, s, Act(u)) {
      move := Act(u);
    } else if s.pos[u].action == WAIT_RECEIVES {
      move := ReceiveCanProgress(c, s, u);
    } else {
      move := SendCanProgress(c, s, u);
    }
  }

  /** A run in which every unit acts in its thread's order. */
  ghost predicate ThreadRun<D(!new), M(!new)>(c: Config<D, M>, run: seq<State<D, M>>, moves: seq<Move>) {
    && Run(c, run, moves)
    && forall i | 0 <= i < |moves| :: TookTurn(c, run[i], moves[i])
  }

  ghost predicate TookTurn<D(!new), M(!new)>(c: Config<D, M>, s: State<D, M>, move: Move) {
    Shaped(c, s) && Can(c, s, move) && (move.Act? ==> Turn(c, s, move.u))
  }

  lemma {:induction false} ThreadRunOrder<D(!new), M(!new)>(
    c: Config<D, M>, run: seq<State<D, M>>, moves: seq<Move>, i: nat)
    requires ThreadRun(c, run, moves) && i < |run|
    ensures Inv(c, run[i]) && ThreadOrder(c, run[i])
  {
    RunInv(c, run, moves, i);
    if i > 0 {
      ThreadRunOrder(c, run, moves, i - 1);
      assert Stepped(c, run[i - 1], moves[i - 1], run[i]);
      assert TookTurn(c, run[i - 1], moves[i - 1]);
      StepThreadOrder(c, run[i - 1], moves[i - 1]);
    }
  }

  // ----- every execution ends -----

  /** Departures and deliveries so far on the channels from u to units below k. */
  ghost function Traffic<D(!new), M(!new)>(c: Config<D, M>, s: State<D, M>, u: nat, k: nat): nat
    requires Shaped(c, s) && u < c.Units() && k <= c.Units()
  {
    if k == 0 then 0 else
      Traffic(c, s, u, k - 1)
      + (if c.Nbr(u, k - 1) then s.chan(c.SendKey(u, k - 1)).left + s.chan(c.SendKey(u, k - 1)).delivered else 0)
  }

  /** Moves made so far by units below k and on their outgoing channels. */
  ghost function Work<D(!new), M(!new)>(c: Config<D, M>, s: State<D, M>, k: nat): nat
    requires Shaped(c, s) && k <= c.Units()
  {
    if k == 0 then 0 else
      Work(c, s, k - 1) + 6 * s.pos[k - 1].round + s.pos[k - 1].action + Traffic(c, s, k - 1, c.Units())
  }

  lemma {:induction false} TrafficBound<D(!new), M(!new)>(c: Config<D, M>, s: State<D, M>, u: nat, k: nat)
    requires Inv(c, s) && u < c.Units() && k <= c.Units()
    ensures Traffic(c, s, u, k) <= k * (2 * c.rounds)
  {
    if k > 0 {
      TrafficBound(c, s, u, k - 1);
      assert UnitInv(c, s, u);
      assert c.Nbr(u, k - 1) ==> PairInv(c, s, u, k - 1);
      assert k * (2 * c.rounds) == (k - 1) * (2 * c.rounds) + 2 * c.rounds;
    }
  }

  lemma {:induction false} WorkBound<D(!new), M(!new)>(c: Config<D, M>, s: State<D, M>, k: nat)
    requires Inv(c, s) && k <= c.Units()
    ensures Work(c, s, k) <= k * (6 * c.rounds + c.Units() * (2 * c.rounds))
  {
    if k > 0 {
      WorkBound(c, s, k - 1);
      TrafficBound(c, s, k - 1, c.Units());
      assert UnitInv(c, s, k - 1);
      var per := 6 * c.rounds + c.Units() * (2 * c.rounds);
      assert k * per == (k - 1) * per + per;
    }
  }

  /** Moves other than Leave(u, _) and Deliver(u, _) below k leave unit u's traffic alone; those two add one. */
  lemma {:induction false} TrafficStep<D(!new), M(!new)>(c: Config<D, M>, s: State<D, M>, move: Move, u: nat, k: nat)
    requires Inv(c, s) && Can(c, s, move) && u < c.Units() && k <= c.Units()
    ensures Shaped(c, Apply(c, s, move))
    ensures Traffic(c, Apply(c, s, move), u, k)
         == Traffic(c, s, u, k) + (if !move.Act? && move.u == u && move.v < k then 1 else 0)
  {
    if k > 0 {
      TrafficStep(c, s, move, u, k - 1);
      if c.Nbr(u, k - 1) && !move.Act? && c.SendKey(u, k - 1) == c.SendKey(move.u, move.v) {
        KeyInjective(c, u, k - 1, move.u, move.v);
      }
    }
  }

  lemma {:induction false} WorkStep<D(!new), M(!new)>(c: Config<D, M>, s: State<D, M>, move: Move, k: nat)
    requires Inv(c, s) && Can(c, s, move) && k <= c.Units()
    ensures Shaped(c, Apply(c, s, move))
    ensures Work(c, Apply(c, s, move), k) == Work(c, s, k) + (if move.u < k then 1 else 0)
  {
    if k > 0 {
      WorkStep(c, s, move, k - 1);
      TrafficStep(c, s, move, k - 1, c.Units());
      assert UnitInv(c, s, k - 1);
    }
  }

  lemma {:induction false} MovesAreWork<D(!new), M(!new)>(
    c: Config<D, M>, run: seq<State<D, M>>, moves: seq<Move>, i: nat)
    requires Run(c, run, moves) && i < |run|
    ensures Inv(c, run[i]) && Work(c, run[i], c.Units()) >= i
  {
    RunInv(c, run, moves, i);
    if i > 0 {
      MovesAreWork(c, run, moves, i - 1);
      assert Stepped(c, run[i - 1], moves[i - 1], run[i]);
      WorkStep(c, run[i - 1], moves[i - 1], c.Units());
    }
  }

  /**
   Every execution ends, and ends finished: a run has a bounded number of moves, and a run that has not finished
   can be continued by a move that respects the threads' order and waits for posted receives.
   */
  lemma ExchangeTerminates<D(!new), M(!new)>(c: Config<D, M>, run: seq<State<D, M>>, moves: seq<Move>)
    requires ThreadRun(c, run, moves)
    ensures |moves| <= c.Units() * (6 * c.rounds + c.Units() * (2 * c.rounds))
    ensures Shaped(c, run[|moves|])
    ensures Finished(c, run[|moves|]) || exists move :: ThreadCan(c, run[|moves|], move)
  {
    MovesAreWork(c, run, moves, |moves|);
    WorkBound(c, run[|moves|], c.Units());
    ThreadRunOrder(c, run, moves, |moves|);
    if !Finished(c, run[|moves|]) {
      var move := NoDeadlock(c, run[|moves|]);
    }
  }
}
