/** Distribution of submeshes over ranks, and the marking of faces that the partition cuts. */
module Partitioning {
  import opened EdgeTypes
  import opened Sides

  // ----- round robin -----

  /** A submesh and the node METIS put it on. */
  datatype Placed = Placed(part: nat, node: nat)

  /** Submeshes on a node among the first k, in the order they are visited. */
  function OnNode(order: seq<Placed>, k: nat, node: nat): nat
    requires k <= |order|
  {
    if k == 0 then 0 else OnNode(order, k - 1, node) + if order[k - 1].node == node then 1 else 0
  }

  /** The rank of the i-th submesh visited: its node's ranks take turns. */
  function RankAt(order: seq<Placed>, ranks: nat, i: nat): nat
    requires i < |order| && ranks > 0
  {
    OnNode(order, i, order[i].node) % ranks + ranks * order[i].node
  }

  function OnRank(order: seq<Placed>, ranks: nat, k: nat, rank: nat): nat
    requires k <= |order| && ranks > 0
  {
    if k == 0 then 0 else
      OnRank(order, ranks, k - 1, rank) + if RankAt(order, ranks, k - 1) == rank then 1 else 0
  }

  lemma UniqueDivMod(d: nat, q: nat, x: nat, n: nat)
    requires x < d && n == d * q + x
    ensures n / d == q && n % d == x
  {
    var q', x' := n / d, n % d;
    assert d * (q - q') == x' - x;
    if q != q' {
      FarMultiple(d, q - q');
    }
  }

  lemma FarMultiple(d: int, k: int)
    requires d > 0 && k != 0
    ensures d * k >= d || d * k <= -d
  {
    if k > 0 {
      assert d * (k - 1) >= 0;
    } else {
      assert d * (-k - 1) >= 0;
    }
  }

  lemma DivModStep(c: nat, ranks: nat)
    requires ranks > 0
    ensures if c % ranks + 1 < ranks then (c + 1) / ranks == c / ranks && (c + 1) % ranks == c % ranks + 1
            else (c + 1) / ranks == c / ranks + 1 && (c + 1) % ranks == 0
  {
    var q, x := c / ranks, c % ranks;
    if x + 1 < ranks {
      UniqueDivMod(ranks, q, x + 1, c + 1);
    } else {
      assert c + 1 == ranks * (q + 1);
      UniqueDivMod(ranks, q + 1, 0, c + 1);
    }
  }

  lemma ModSuccessor(c: nat, ranks: nat)
    requires ranks > 0
    ensures (c % ranks + 1) % ranks == (c + 1) % ranks
  {
    DivModStep(c, ranks);
    if c % ranks + 1 < ranks {
      UniqueDivMod(ranks, 0, c % ranks + 1, c % ranks + 1);
    }
  }

  lemma RankInRange(x: nat, ranks: nat, node: nat, nodes: nat)
    requires x < ranks && node < nodes
    ensures x + ranks * node < nodes * ranks
  {
    var d := nodes - node - 1;
    assert ranks * d >= 0;
    assert nodes * ranks == ranks * (node + 1 + d) == ranks * node + ranks + ranks * d;
  }

  /** The parts among the first k. */
  function PartsOf(order: seq<Placed>, k: nat): set<nat>
    requires k <= |order|
  {
    set i | 0 <= i < k :: order[i].part
  }

  /** The i-th submesh visited has its rank and its number. */
  predicate Assigned(order: seq<Placed>, ranks: nat, i: nat, rankOf: map<nat, nat>, localOf: map<nat, nat>)
    requires i < |order| && ranks > 0
  {
    var p := order[i].part;
    && p in rankOf && rankOf[p] == RankAt(order, ranks, i)
    && p in localOf && localOf[p] == OnRank(order, ranks, i, RankAt(order, ranks, i))
  }

  /** The first k submeshes have their ranks and numbers, and nothing else has. */
  ghost predicate AssignedUpTo(order: seq<Placed>, ranks: nat, k: nat, rankOf: map<nat, nat>, localOf: map<nat, nat>)
    requires k <= |order| && ranks > 0
  {
    && rankOf.Keys == localOf.Keys == PartsOf(order, k)
    && forall j | 0 <= j < k :: Assigned(order, ranks, j, rankOf, localOf)
  }

  ghost predicate DistinctParts(order: seq<Placed>) {
    forall i, j | 0 <= i < j < |order| :: order[i].part != order[j].part
  }

  lemma AssignNext(order: seq<Placed>, ranks: nat, i: nat, rankOf: map<nat, nat>, localOf: map<nat, nat>,
                   rankOf': map<nat, nat>, localOf': map<nat, nat>)
    requires i < |order| && ranks > 0 && AssignedUpTo(order, ranks, i, rankOf, localOf) && DistinctParts(order)
    requires rankOf' == rankOf[order[i].part := RankAt(order, ranks, i)]
    requires localOf' == localOf[order[i].part := OnRank(order, ranks, i, RankAt(order, ranks, i))]
    ensures AssignedUpTo(order, ranks, i + 1, rankOf', localOf')
  {
    assert PartsOf(order, i + 1) == PartsOf(order, i) + {order[i].part};
    var k := i + 1;
    forall j | 0 <= j < k
      ensures Assigned(order, ranks, j, rankOf', localOf')
    {
      assert j < i ==> Assigned(order, ranks, j, rankOf, localOf);
    }
  }

  /** The two families of counters after k submeshes: whose turn it is on each node, and the load of each rank. */
  ghost predicate Counted(order: seq<Placed>, ranks: nat, k: nat, turn: seq<nat>, counts: seq<nat>)
    requires k <= |order| && ranks > 0
  {
    && (forall node | 0 <= node < |turn| :: turn[node] == OnNode(order, k, node) % ranks)
    && (forall rank | 0 <= rank < |counts| :: counts[rank] == OnRank(order, ranks, k, rank))
  }

  lemma CountNext(order: seq<Placed>, ranks: nat, i: nat, turn: seq<nat>, counts: seq<nat>)
    requires i < |order| && ranks > 0 && order[i].node < |turn| && |counts| == |turn| * ranks
    requires Counted(order, ranks, i, turn, counts)
    ensures var node := order[i].node;
            var rank := turn[node] + ranks * node;
            && rank == RankAt(order, ranks, i) < |counts|
            && Counted(order, ranks, i + 1, turn[node := (turn[node] + 1) % ranks], counts[rank := counts[rank] + 1])
  {
    var node := order[i].node;
    RankInRange(turn[node], ranks, node, |turn|);
    ModSuccessor(OnNode(order, i, node), ranks);
  }

  predicate NodesBelow(order: seq<Placed>, nodes: nat) {
    forall i | 0 <= i < |order| :: order[i].node < nodes
  }

  /** Everything round robin keeps while it visits submeshes. */
  ghost predicate RoundRobinState(order: seq<Placed>, ranks: nat, k: nat, turn: seq<nat>, counts: seq<nat>,
                                  rankOf: map<nat, nat>, localOf: map<nat, nat>)
    requires k <= |order| && ranks > 0
  {
    && |counts| == |turn| * ranks && Counted(order, ranks, k, turn, counts)
    && AssignedUpTo(order, ranks, k, rankOf, localOf)
  }

  function Zeros(n: nat): (z: seq<nat>)
    ensures |z| == n && forall i | 0 <= i < n :: z[i] == 0
  {
    seq(n, _ => 0)
  }

  lemma NothingPlaced(order: seq<Placed>, ranks: nat, turn: seq<nat>, counts: seq<nat>)
    requires ranks > 0 && turn == Zeros(|turn|) && counts == Zeros(|turn| * ranks)
    ensures RoundRobinState(order, ranks, 0, turn, counts, map[], map[])
  {
    assert 0 % ranks == 0;
  }

  /** The next submesh goes to the rank of its node whose turn it is. */
  method PlaceNext(order: seq<Placed>, ranks: nat, i: nat, turn: seq<nat>, counts: seq<nat>, rankOf: map<nat, nat>,
                   localOf: map<nat, nat>)
    returns (turn': seq<nat>, counts': seq<nat>, rankOf': map<nat, nat>, localOf': map<nat, nat>)
    requires i < |order| && ranks > 0 && DistinctParts(order) && NodesBelow(order, |turn|)
    requires RoundRobinState(order, ranks, i, turn, counts, rankOf, localOf)
    ensures |turn'| == |turn| && RoundRobinState(order, ranks, i + 1, turn', counts', rankOf', localOf')
  {
    var p := order[i];
    var rank := turn[p.node] + ranks * p.node;
    CountNext(order, ranks, i, turn, counts);
    turn' := turn[p.node := (turn[p.node] + 1) % ranks];
    rankOf' := rankOf[p.part := rank];
    localOf' := localOf[p.part := counts[rank]];
    counts' := counts[rank := counts[rank] + 1];
    AssignNext(order, ranks, i, rankOf, localOf, rankOf', localOf');
  }

  /**
   Assigns every submesh a rank of its node and a number on that rank, with one counter a node and one a rank.
   The container is unordered: order is whatever order it is visited in.
   */
  method RoundRobin(order: seq<Placed>, nodes: nat, ranks: nat)
    returns (rankOf: map<nat, nat>, localOf: map<nat, nat>, counts: seq<nat>)
    requires ranks > 0 && NodesBelow(order, nodes) && DistinctParts(order)
    ensures AssignedUpTo(order, ranks, |order|, rankOf, localOf)
    ensures |counts| == nodes * ranks
    ensures forall rank | 0 <= rank < |counts| :: counts[rank] == OnRank(order, ranks, |order|, rank)
  {
    rankOf, localOf := map[], map[];
    var turn: seq<nat>;
    turn, counts := Zeros(nodes), Zeros(nodes * ranks);
    NothingPlaced(order, ranks, turn, counts);
    for i := 0 to |order|
      invariant |turn| == nodes && RoundRobinState(order, ranks, i, turn, counts, rankOf, localOf)
    {
      turn, counts, rankOf, localOf := PlaceNext(order, ranks, i, turn, counts, rankOf, localOf);
    }
  }

  lemma {:induction false} OnRankGrows(order: seq<Placed>, ranks: nat, i: nat, j: nat, rank: nat)
    requires ranks > 0 && i <= j <= |order|
    ensures OnRank(order, ranks, i, rank) <= OnRank(order, ranks, j, rank)
    decreases j
  {
    if i < j {
      OnRankGrows(order, ranks, i, j - 1, rank);
    }
  }

  /** (rank, number on the rank) names a submesh. */
  lemma PlacesDistinct(order: seq<Placed>, ranks: nat, i: nat, j: nat)
    requires ranks > 0 && i < j < |order| && RankAt(order, ranks, i) == RankAt(order, ranks, j)
    ensures OnRank(order, ranks, i, RankAt(order, ranks, i)) < OnRank(order, ranks, j, RankAt(order, ranks, j))
  {
    OnRankGrows(order, ranks, i + 1, j, RankAt(order, ranks, i));
  }

  /** The numbers on a rank are dense. */
  lemma {:induction false} PlacesDense(order: seq<Placed>, ranks: nat, k: nat, rank: nat, local: nat) returns (i: nat)
    requires ranks > 0 && k <= |order| && local < OnRank(order, ranks, k, rank)
    ensures i < k && RankAt(order, ranks, i) == rank && OnRank(order, ranks, i, rank) == local
  {
    if local < OnRank(order, ranks, k - 1, rank) {
      i := PlacesDense(order, ranks, k - 1, rank, local);
    } else {
      i := k - 1;
    }
  }

  lemma SameRankSameTurn(x: nat, node: nat, y: nat, node': nat, ranks: nat)
    requires x < ranks && y < ranks && x + ranks * node == y + ranks * node'
    ensures x == y && node == node'
  {
    UniqueDivMod(ranks, node, x, x + ranks * node);
    UniqueDivMod(ranks, node', y, x + ranks * node);
  }

  /** How many submeshes of a node its x-th rank has got. */
  lemma {:induction false} LoadOfRank(order: seq<Placed>, ranks: nat, k: nat, node: nat, x: nat)
    requires ranks > 0 && k <= |order| && x < ranks
    ensures var c := OnNode(order, k, node);
            OnRank(order, ranks, k, x + ranks * node) == c / ranks + (if x < c % ranks then 1 else 0)
  {
    if k > 0 {
      LoadOfRank(order, ranks, k - 1, node, x);
      var p, c := order[k - 1], OnNode(order, k - 1, node);
      var turn := OnNode(order, k - 1, p.node) % ranks;
      DivModStep(c, ranks);
      if turn + ranks * p.node == x + ranks * node {
        SameRankSameTurn(turn, p.node, x, node, ranks);
      }
    }
  }

  /** The loads of two ranks of one node differ by at most one, for every visiting order. */
  lemma Balanced(order: seq<Placed>, ranks: nat, node: nat, x: nat, y: nat)
    requires ranks > 0 && x < ranks && y < ranks
    ensures OnRank(order, ranks, |order|, x + ranks * node) <= OnRank(order, ranks, |order|, y + ranks * node) + 1
  {
    LoadOfRank(order, ranks, |order|, node, x);
    LoadOfRank(order, ranks, |order|, node, y);
  }

  // ----- faces that the partition cuts -----

  /** Faces 0, 1 and 2 of every element have a neighbour id and a boundary type. */
  ghost predicate FullTable<T>(elements: seq<nat>, table: map<Side, T>) {
    forall s: Side :: s in table <==> s.elt in elements && s.face < 3
  }

  /** The unordered pair of elements a face separates. */
  function PairOf(neighbor: map<Side, nat>, s: Side): (nat, nat)
    requires s in neighbor
  {
    if s.elt < neighbor[s] then (s.elt, neighbor[s]) else (neighbor[s], s.elt)
  }

  /** A face between elements of different parts. */
  predicate Split(neighbor: map<Side, nat>, part: map<nat, nat>, s: Side) {
    && s in neighbor && neighbor[s] != DEFAULT_ID
    && s.elt in part && neighbor[s] in part && part[s.elt] != part[neighbor[s]]
  }

  /** edges lists every pair of neighbouring elements once, in some order. */
  ghost predicate ListsEdges(neighbor: map<Side, nat>, edges: seq<(nat, nat)>) {
    && (forall i, j | 0 <= i < j < |edges| :: edges[i] != edges[j])
    && (forall p :: p in edges <==> exists s :: s in neighbor && neighbor[s] != DEFAULT_ID && PairOf(neighbor, s) == p)
  }

  /** The faces of element a towards element b become distributed. */
  method MarkFaces(elements: seq<nat>, neighbor: map<Side, nat>, btype: map<Side, nat>, a: nat, b: nat)
    returns (btype': map<Side, nat>)
    requires a in elements && FullTable(elements, neighbor) && FullTable(elements, btype)
    ensures btype'.Keys == btype.Keys
    ensures forall s | s in btype ::
              btype'[s] == if s.elt == a && neighbor[s] == b then Distributed(btype[s]) else btype[s]
  {
    btype' := btype;
    for k := 0 to 3
      invariant btype'.Keys == btype.Keys
      invariant forall s | s in btype ::
                  btype'[s] == if s.elt == a && s.face < k && neighbor[s] == b then Distributed(btype[s]) else btype[s]
    {
      if b == neighbor[Side(a, k)] {
        btype' := btype'[Side(a, k) := Distributed(btype'[Side(a, k)])];
      }
    }
  }

  /** The pair of a face is among the first n, and its elements are in different parts. */
  ghost predicate MarkedBy(neighbor: map<Side, nat>, part: map<nat, nat>, edges: seq<(nat, nat)>, n: nat, s: Side)
    requires n <= |edges|
  {
    Split(neighbor, part, s) && exists i :: 0 <= i < n && edges[i] == PairOf(neighbor, s)
  }

  /**
   Visits every pair of neighbouring elements and marks, on both sides, the faces between different parts.
   Every cut face changes exactly once.
   */
  method MarkSplitFaces(elements: seq<nat>, neighbor: map<Side, nat>, btype: map<Side, nat>, part: map<nat, nat>,
                        edges: seq<(nat, nat)>)
    returns (btype': map<Side, nat>)
    requires FullTable(elements, neighbor) && FullTable(elements, btype)
    requires forall e :: e in elements <==> e in part
    requires forall s | s in neighbor && neighbor[s] != DEFAULT_ID :: neighbor[s] in elements
    requires DEFAULT_ID !in elements && ListsEdges(neighbor, edges)
    ensures btype'.Keys == btype.Keys
    ensures forall s | s in btype :: btype'[s] == if Split(neighbor, part, s) then Distributed(btype[s]) else btype[s]
  {
    btype' := btype;
    for i := 0 to |edges|
      invariant btype'.Keys == btype.Keys
      invariant forall s | s in btype ::
                  btype'[s] == if MarkedBy(neighbor, part, edges, i, s) then Distributed(btype[s]) else btype[s]
    {
      var (a, b) := edges[i];
      assert edges[i] in edges;
      ghost var before := btype';
      if part[a] != part[b] {
        btype' := MarkFaces(elements, neighbor, btype', a, b);
        btype' := MarkFaces(elements, neighbor, btype', b, a);
      }
      forall s | s in btype
        ensures btype'[s] == if MarkedBy(neighbor, part, edges, i + 1, s) then Distributed(btype[s]) else btype[s]
      {
        MarkNext(elements, neighbor, part, edges, i, s);
      }
    }
    forall s | s in btype && Split(neighbor, part, s)
      ensures MarkedBy(neighbor, part, edges, |edges|, s)
    {
      assert PairOf(neighbor, s) in edges;
    }
  }

  /** Pair i marks the faces of that pair, if it is split, and pairs are not repeated. */
  lemma MarkNext(elements: seq<nat>, neighbor: map<Side, nat>, part: map<nat, nat>, edges: seq<(nat, nat)>, i: nat,
                 s: Side)
    requires FullTable(elements, neighbor) && s in neighbor && i < |edges| && ListsEdges(neighbor, edges)
    requires DEFAULT_ID !in elements
    requires edges[i].0 in part && edges[i].1 in part && edges[i].0 in elements && edges[i].1 in elements
    ensures var (a, b) := edges[i];
            var here := part[a] != part[b] && ((s.elt == a && neighbor[s] == b) || (s.elt == b && neighbor[s] == a));
            && (here ==> !MarkedBy(neighbor, part, edges, i, s))
            && (MarkedBy(neighbor, part, edges, i + 1, s) <==> MarkedBy(neighbor, part, edges, i, s) || here)
  {
    var (a, b) := edges[i];
    assert edges[i] in edges;
    var t :| t in neighbor && neighbor[t] != DEFAULT_ID && PairOf(neighbor, t) == edges[i];
    assert a <= b;
    var here := part[a] != part[b] && ((s.elt == a && neighbor[s] == b) || (s.elt == b && neighbor[s] == a));
    assert here ==> PairOf(neighbor, s) == edges[i] && Split(neighbor, part, s);
    assert Split(neighbor, part, s) && PairOf(neighbor, s) == edges[i] ==> here;
  }
}
