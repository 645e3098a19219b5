/**
 The graph handed to the partitioner in compressed rows: built from weighted edges given in either or both directions.
 */
module CsrMatrix {
  import opened Sequences

  type Edge = (nat, nat)

  function Swap(e: Edge): Edge {
    (e.1, e.0)
  }

  function WeightOf(ew: map<Edge, real>, e: Edge): real {
    if e in ew then ew[e] else 0.0
  }

  /** Nodes joined to src by one of the keys, in either direction. */
  function Neighbours(keys: set<Edge>, src: nat): set<nat> {
    (set e | e in keys && e.0 == src :: e.1) + (set e | e in keys && e.1 == src :: e.0)
  }

  ghost predicate Increasing(s: seq<nat>) {
    forall i, j | 0 <= i < j < |s| :: s[i] < s[j]
  }

  /** s lists the elements of x in increasing order. */
  ghost predicate SortedListOf(s: seq<nat>, x: set<nat>) {
    Increasing(s) && forall v :: v in s <==> v in x
  }

  ghost predicate IsMinimum(x: set<nat>, m: nat) {
    m in x && forall v | v in x :: m <= v
  }

  lemma {:induction false} HasMinimum(x: set<nat>)
    requires x != {}
    ensures exists m :: IsMinimum(x, m)
    decreases |x|
  {
    var k :| k in x;
    if x == {k} {
      assert IsMinimum(x, k);
    } else {
      var rest := x - {k};
      HasMinimum(rest);
      var least :| IsMinimum(rest, least);
      var first := if k < least then k else least;
      forall v | v in x
        ensures first <= v
      {
        assert v == k || v in rest;
      }
      assert IsMinimum(x, first);
    }
  }

  /** std::sort on the elements of a set. */
  method SortSet(x: set<nat>) returns (s: seq<nat>)
    ensures SortedListOf(s, x)
  {
    s := [];
    var rest := x;
    while rest != {}
      invariant rest <= x && Increasing(s)
      invariant forall v :: v in s <==> v in x - rest
      invariant forall i, w | 0 <= i < |s| && w in rest :: s[i] < w
    {
      HasMinimum(rest);
      var m :| m in rest && forall v | v in rest :: m <= v;
      s := s + [m];
      rest := rest - {m};
    }
  }

  function RowOf(edges: map<nat, seq<nat>>, src: nat): seq<nat> {
    if src in edges then edges[src] else []
  }

  /** The edges of one row. */
  function RowEdges(src: nat, row: seq<nat>): (es: seq<Edge>)
    ensures |es| == |row|
  {
    seq(|row|, i requires 0 <= i < |row| => (src, row[i]))
  }

  /** All edges, row after row. */
  function Listing(nodes: seq<nat>, edges: map<nat, seq<nat>>): seq<Edge> {
    if nodes == [] then [] else
      var last := nodes[|nodes| - 1];
      Listing(nodes[..|nodes| - 1], edges) + RowEdges(last, RowOf(edges, last))
  }

  class CSRMat {
    const edgeWgts: map<Edge, real>
    var nodes: seq<nat>
    var edges: map<nat, seq<nat>>

    /** Every edge is in the rows of both its ends; rows and the list of nodes are sorted. */
    ghost predicate Valid()
      reads this
    {
      && Increasing(nodes)
      && (forall src :: SortedListOf(RowOf(edges, src), Neighbours(edgeWgts.Keys, src)))
    }

    ghost predicate EndsKnown()
      reads this
    {
      forall e | e in edgeWgts :: e.0 in nodes && e.1 in nodes
    }

    constructor (ids: set<nat>, ew: map<Edge, real>)
      ensures Valid() && edgeWgts == ew && forall v :: v in nodes <==> v in ids
    {
      edgeWgts, nodes, edges := ew, [], map[];
      new;
      nodes := SortSet(ids);
      var sets: map<nat, set<nat>> := map[];
      var todo := ew.Keys;
      while todo != {}
        invariant todo <= ew.Keys && NeighboursOf(sets, ew.Keys - todo)
        invariant edgeWgts == ew && SortedListOf(nodes, ids) && edges == map[]
      {
        var e :| e in todo;
        sets := LinkBoth(sets, ew.Keys - todo, e);
        assert ew.Keys - (todo - {e}) == ew.Keys - todo + {e};
        todo := todo - {e};
      }
      assert ew.Keys - todo == ew.Keys;
      SortRows(sets);
    }

    /** Turns every edge set into a sorted row. */
    method SortRows(sets: map<nat, set<nat>>)
      requires edges == map[]
      modifies `edges
      ensures edges.Keys == sets.Keys && forall src | src in edges :: SortedListOf(edges[src], sets[src])
    {
      var todo := sets.Keys;
      while todo != {}
        invariant todo <= sets.Keys && edges.Keys == sets.Keys - todo
        invariant forall src | src in edges :: SortedListOf(edges[src], sets[src])
      {
        var src :| src in todo;
        var row := SortSet(sets[src]);
        edges := edges[src := row];
        todo := todo - {src};
      }
    }

    /** Row starts. */
    method Xadj() returns (result: seq<nat>)
      ensures |result| == |nodes| + 1
      ensures forall i | 0 <= i <= |nodes| :: result[i] == |Listing(nodes[..i], edges)|
    {
      result := [0];
      for i := 0 to |nodes|
        invariant |result| == i + 1
        invariant forall j | 0 <= j <= i :: result[j] == |Listing(nodes[..j], edges)|
      {
        var n := if nodes[i] in edges then |edges[nodes[i]]| else 0;
        result := result + [result[i] + n];
        assert nodes[..i + 1][..i] == nodes[..i];
      }
    }

    /** The position of every node. */
    method Positions() returns (mapping: map<nat, nat>)
      ensures mapping.Keys == set v | v in nodes
      ensures forall v | v in mapping :: mapping[v] < |nodes| && nodes[mapping[v]] == v
    {
      mapping := map[];
      for i := 0 to |nodes|
        invariant mapping.Keys == set v | v in nodes[..i]
        invariant forall v | v in mapping :: mapping[v] < |nodes| && nodes[mapping[v]] == v
      {
        mapping := mapping[nodes[i] := i];
        assert nodes[..i + 1] == nodes[..i] + [nodes[i]];
      }
      assert nodes[..|nodes|] == nodes;
    }

    /** Column indices.  An edge to an unknown node makes the look-up fail. */
    method Adj() returns (result: seq<nat>)
      requires Valid() && EndsKnown()
      ensures Indexes(nodes, result, Listing(nodes, edges))
    {
      var mapping := Positions();
      result := [];
      for i := 0 to |nodes|
        invariant Indexes(nodes, result, Listing(nodes[..i], edges))
      {
        assert nodes[..i + 1][..i] == nodes[..i];
        RowEndsKnown(edgeWgts, nodes, RowOf(edges, nodes[i]), nodes[i]);
        var row := IndexRow(mapping, RowOf(edges, nodes[i]), nodes[i]);
        IndexesConcat(nodes, result, Listing(nodes[..i], edges), row, RowEdges(nodes[i], RowOf(edges, nodes[i])));
        result := result + row;
      }
      assert nodes[..|nodes|] == nodes;
    }

    method IndexRow(mapping: map<nat, nat>, row: seq<nat>, src: nat) returns (result: seq<nat>)
      requires forall v | v in row :: v in mapping
      requires forall v | v in mapping :: mapping[v] < |nodes| && nodes[mapping[v]] == v
      ensures Indexes(nodes, result, RowEdges(src, row))
    {
      result := [];
      for j := 0 to |row|
        invariant Indexes(nodes, result, RowEdges(src, row)[..j])
      {
        assert row[j] in row;
        result := result + [mapping[row[j]]];
      }
    }

    /** The weight of an edge is that of both its directions together. */
    method EdgeWgts() returns (result: seq<real>)
      ensures result == Weights(edgeWgts, Listing(nodes, edges))
    {
      result := [];
      for i := 0 to |nodes|
        invariant result == Weights(edgeWgts, Listing(nodes[..i], edges))
      {
        var src := nodes[i];
        var row := RowOf(edges, src);
        ghost var before := Listing(nodes[..i], edges);
        assert nodes[..i + 1][..i] == nodes[..i];
        for j := 0 to |row|
          invariant result == Weights(edgeWgts, before + RowEdges(src, row)[..j])
        {
          var w := 0.0;
          if (src, row[j]) in edgeWgts {
            w := w + edgeWgts[(src, row[j])];
          }
          if (row[j], src) in edgeWgts {
            w := w + edgeWgts[(row[j], src)];
          }
          result := result + [w];
          assert before + RowEdges(src, row)[..j + 1] == (before + RowEdges(src, row)[..j]) + [(src, row[j])];
        }
        assert RowEdges(src, row)[..|row|] == RowEdges(src, row);
      }
      assert nodes[..|nodes|] == nodes;
    }
  }

  /** Entry k of adj is the position of the node that edge k leads to. */
  ghost predicate Indexes(nodes: seq<nat>, adj: seq<nat>, es: seq<Edge>) {
    |adj| == |es| && forall k | 0 <= k < |adj| :: adj[k] < |nodes| && nodes[adj[k]] == es[k].1
  }

  lemma IndexesConcat(nodes: seq<nat>, a: seq<nat>, es: seq<Edge>, b: seq<nat>, fs: seq<Edge>)
    requires Indexes(nodes, a, es) && Indexes(nodes, b, fs)
    ensures Indexes(nodes, a + b, es + fs)
  {
  }

  lemma NeighboursGrow(keys: set<Edge>, e: Edge)
    ensures Neighbours(keys + {e}, e.0) == Neighbours(keys, e.0) + {e.1} + (if e.0 == e.1 then {e.0} else {})
    ensures Neighbours(keys + {e}, e.1) == Neighbours(keys, e.1) + {e.0} + (if e.0 == e.1 then {e.1} else {})
    ensures forall src | src != e.0 && src != e.1 :: Neighbours(keys + {e}, src) == Neighbours(keys, src)
  {
  }

  /** sets holds every node's neighbours along the given edges. */
  ghost predicate NeighboursOf(sets: map<nat, set<nat>>, keys: set<Edge>) {
    forall src :: SetAt(sets, src) == Neighbours(keys, src)
  }

  function SetAt(sets: map<nat, set<nat>>, src: nat): set<nat> {
    if src in sets then sets[src] else {}
  }

  method LinkBoth(sets: map<nat, set<nat>>, ghost keys: set<Edge>, e: Edge) returns (sets': map<nat, set<nat>>)
    requires NeighboursOf(sets, keys)
    ensures NeighboursOf(sets', keys + {e})
  {
    sets' := sets[e.0 := SetAt(sets, e.0) + {e.1}];
    sets' := sets'[e.1 := SetAt(sets', e.1) + {e.0}];
    NeighboursGrow(keys, e);
  }

  lemma RowEndsKnown(ew: map<Edge, real>, nodes: seq<nat>, row: seq<nat>, src: nat)
    requires SortedListOf(row, Neighbours(ew.Keys, src)) && forall e | e in ew :: e.0 in nodes && e.1 in nodes
    ensures forall v | v in row :: v in nodes
  {
  }

  function BothWeights(ew: map<Edge, real>, e: Edge): real {
    WeightOf(ew, e) + WeightOf(ew, Swap(e))
  }

  function Weights(ew: map<Edge, real>, es: seq<Edge>): (ws: seq<real>)
    ensures |ws| == |es|
  {
    seq(|es|, i requires 0 <= i < |es| => BothWeights(ew, es[i]))
  }

  // ----- what the arrays describe -----

  ghost predicate Distinct(es: seq<Edge>) {
    forall i, j | 0 <= i < j < |es| :: es[i] != es[j]
  }

  /** Sorted rows that hold every edge from both its ends. */
  ghost predicate SymmetricRows(nodes: seq<nat>, edges: map<nat, seq<nat>>, keys: set<Edge>) {
    && Increasing(nodes) && (forall e | e in keys :: e.0 in nodes && e.1 in nodes)
    && (forall src :: SortedListOf(RowOf(edges, src), Neighbours(keys, src)))
  }

  lemma NeighbourIff(keys: set<Edge>, src: nat, dst: nat)
    ensures dst in Neighbours(keys, src) <==> (src, dst) in keys || (dst, src) in keys
  {
    if (src, dst) in keys {
      assert (src, dst).0 == src;
    }
    if (dst, src) in keys {
      assert (dst, src).1 == src;
    }
  }

  /** Edge e is listed once its row is, and only once. */
  lemma {:induction false} ListingExact(nodes: seq<nat>, edges: map<nat, seq<nat>>, keys: set<Edge>, n: nat)
    requires SymmetricRows(nodes, edges, keys) && n <= |nodes|
    ensures forall e: Edge :: e in Listing(nodes[..n], edges) <==> e.0 in nodes[..n] && (e in keys || Swap(e) in keys)
    ensures Distinct(Listing(nodes[..n], edges))
  {
    if n > 0 {
      ListingExact(nodes, edges, keys, n - 1);
      var src := nodes[n - 1];
      var row, before := RowOf(edges, src), Listing(nodes[..n - 1], edges);
      assert nodes[..n][..n - 1] == nodes[..n - 1];
      forall e: Edge
        ensures e in Listing(nodes[..n], edges) <==> e.0 in nodes[..n] && (e in keys || Swap(e) in keys)
      {
        NeighbourIff(keys, src, e.1);
        assert e in RowEdges(src, row) <==> e.0 == src && e.1 in row by {
          if e.0 == src && e.1 in row {
            var i :| 0 <= i < |row| && row[i] == e.1;
            assert RowEdges(src, row)[i] == e;
          }
        }
      }
      assert src !in nodes[..n - 1];
      NewRow(before, src, row, nodes[..n - 1]);
    }
  }

  lemma NewRow(before: seq<Edge>, src: nat, row: seq<nat>, done: seq<nat>)
    requires Distinct(before) && Increasing(row) && src !in done && forall e | e in before :: e.0 in done
    ensures Distinct(before + RowEdges(src, row))
  {
    var es := before + RowEdges(src, row);
    forall i, j | 0 <= i < j < |es|
      ensures es[i] != es[j]
    {
      if i < |before| <= j {
        assert before[i] in before;
      }
    }
  }

  /** es holds exactly the edges and their mirror images, each once. */
  ghost predicate BothWays(es: seq<Edge>, keys: set<Edge>) {
    Distinct(es) && forall e: Edge :: e in es <==> e in keys || Swap(e) in keys
  }

  lemma WholeListing(nodes: seq<nat>, edges: map<nat, seq<nat>>, keys: set<Edge>)
    requires SymmetricRows(nodes, edges, keys)
    ensures BothWays(Listing(nodes, edges), keys)
  {
    ListingExact(nodes, edges, keys, |nodes|);
    assert nodes[..|nodes|] == nodes;
  }

  /** Adjacency is symmetric: every edge listed is listed from its other end too, with the same weight. */
  lemma ListingSymmetric(nodes: seq<nat>, edges: map<nat, seq<nat>>, ew: map<Edge, real>, k: nat) returns (back: nat)
    requires SymmetricRows(nodes, edges, ew.Keys) && k < |Listing(nodes, edges)|
    ensures back < |Listing(nodes, edges)| && Listing(nodes, edges)[back] == Swap(Listing(nodes, edges)[k])
    ensures Weights(ew, Listing(nodes, edges))[back] == Weights(ew, Listing(nodes, edges))[k]
  {
    WholeListing(nodes, edges, ew.Keys);
    var es := Listing(nodes, edges);
    assert es[k] in es;
    assert Swap(es[k]) in es;
    back :| 0 <= back < |es| && es[back] == Swap(es[k]);
    SameWeight(ew, es, back, k);
  }

  lemma SameWeight(ew: map<Edge, real>, es: seq<Edge>, i: nat, j: nat)
    requires i < |es| && j < |es| && es[i] == Swap(es[j])
    ensures Weights(ew, es)[i] == Weights(ew, es)[j]
  {
  }

  /** The row starts cut the listing into one sorted row a node, in increasing order of the nodes' positions. */
  lemma {:induction false} RowsDelimited(nodes: seq<nat>, edges: map<nat, seq<nat>>, keys: set<Edge>, i: nat, k: nat)
    requires SymmetricRows(nodes, edges, keys) && i < |nodes|
    requires |Listing(nodes[..i], edges)| <= k < |Listing(nodes[..i + 1], edges)|
    ensures |Listing(nodes[..i + 1], edges)| <= |Listing(nodes, edges)|
    ensures Listing(nodes, edges)[k].0 == nodes[i]
    ensures k + 1 < |Listing(nodes[..i + 1], edges)| ==> Listing(nodes, edges)[k].1 < Listing(nodes, edges)[k + 1].1
  {
    ListingPrefix(nodes, edges, i + 1, |nodes|);
    assert nodes[..|nodes|] == nodes;
    RowAppended(nodes, edges, i);
    assert SortedListOf(RowOf(edges, nodes[i]), Neighbours(keys, nodes[i]));
    RowInside(Listing(nodes[..i], edges), nodes[i], RowOf(edges, nodes[i]), k);
  }

  lemma RowAppended(nodes: seq<nat>, edges: map<nat, seq<nat>>, i: nat)
    requires i < |nodes|
    ensures Listing(nodes[..i + 1], edges) == Listing(nodes[..i], edges) + RowEdges(nodes[i], RowOf(edges, nodes[i]))
  {
    assert nodes[..i + 1][..i] == nodes[..i];
  }

  lemma RowInside(before: seq<Edge>, src: nat, row: seq<nat>, k: nat)
    requires Increasing(row) && |before| <= k < |before + RowEdges(src, row)|
    ensures var es := before + RowEdges(src, row);
            es[k].0 == src && (k + 1 < |es| ==> es[k].1 < es[k + 1].1)
  {
  }

  lemma {:induction false} ListingPrefix(nodes: seq<nat>, edges: map<nat, seq<nat>>, i: nat, n: nat)
    requires i <= n <= |nodes|
    ensures |Listing(nodes[..i], edges)| <= |Listing(nodes[..n], edges)|
    ensures forall k | 0 <= k < |Listing(nodes[..i], edges)| ::
              Listing(nodes[..n], edges)[k] == Listing(nodes[..i], edges)[k]
    decreases n
  {
    if i < n {
      ListingPrefix(nodes, edges, i, n - 1);
      assert nodes[..n][..n - 1] == nodes[..n - 1];
    }
  }

  // ----- total weight -----

  /** The weights of a map, added up in some order. */
  ghost function MapTotal(ew: map<Edge, real>): real
    decreases |ew|
  {
    if ew == map[] then 0.0 else
      var e :| e in ew;
      ew[e] + MapTotal(ew - {e})
  }

  lemma {:induction false} MapTotalWithout(ew: map<Edge, real>, e: Edge)
    requires e in ew
    ensures MapTotal(ew) == ew[e] + MapTotal(ew - {e})
    decreases |ew|
  {
    var f :| f in ew && MapTotal(ew) == ew[f] + MapTotal(ew - {f});
    if f != e {
      MapTotalWithout(ew - {f}, e);
      MapTotalWithout(ew - {e}, f);
      assert ew - {f} - {e} == ew - {e} - {f};
    }
  }

  ghost function ListTotal(ew: map<Edge, real>, es: seq<Edge>): real {
    if es == [] then 0.0 else ListTotal(ew, es[..|es| - 1]) + WeightOf(ew, es[|es| - 1])
  }

  lemma {:induction false} ListTotalWithout(ew: map<Edge, real>, es: seq<Edge>, e: Edge)
    requires e !in es
    ensures ListTotal(ew, es) == ListTotal(ew - {e}, es)
  {
    if es != [] {
      ListTotalWithout(ew, es[..|es| - 1], e);
      assert es[|es| - 1] in es;
    }
  }

  /** A list without repetitions that holds every key picks up the whole total. */
  lemma {:induction false} ListPicksTotal(ew: map<Edge, real>, es: seq<Edge>)
    requires Distinct(es) && forall e | e in ew :: e in es
    ensures ListTotal(ew, es) == MapTotal(ew)
    decreases |es|
  {
    if es == [] {
      assert ew == map[] by {
        assert forall e :: e !in ew;
      }
    } else {
      var init, e := es[..|es| - 1], es[|es| - 1];
      assert e !in init;
      ListTotalWithout(ew, init, e);
      assert forall f | f in ew - {e} :: f in init;
      ListPicksTotal(ew - {e}, init);
      if e in ew {
        MapTotalWithout(ew, e);
      } else {
        assert ew - {e} == ew;
      }
    }
  }

  function Swapped(es: seq<Edge>): (r: seq<Edge>)
    ensures |r| == |es|
  {
    seq(|es|, i requires 0 <= i < |es| => Swap(es[i]))
  }

  function RealSum(ws: seq<real>): real {
    if ws == [] then 0.0 else RealSum(ws[..|ws| - 1]) + ws[|ws| - 1]
  }

  lemma {:induction false} SumOfBoth(ew: map<Edge, real>, es: seq<Edge>)
    ensures RealSum(Weights(ew, es)) == ListTotal(ew, es) + ListTotal(ew, Swapped(es))
  {
    if es != [] {
      var init := es[..|es| - 1];
      SumOfBoth(ew, init);
      assert Weights(ew, es)[..|es| - 1] == Weights(ew, init);
      assert Swapped(es)[..|es| - 1] == Swapped(init);
    }
  }

  /** The weights handed out total exactly twice the weights given, edges from a node to itself included. */
  lemma WeightsTotalTwice(nodes: seq<nat>, edges: map<nat, seq<nat>>, ew: map<Edge, real>)
    requires SymmetricRows(nodes, edges, ew.Keys)
    ensures RealSum(Weights(ew, Listing(nodes, edges))) == 2.0 * MapTotal(ew)
  {
    WholeListing(nodes, edges, ew.Keys);
    BothWaysTotalTwice(ew, Listing(nodes, edges));
  }

  lemma BothWaysTotalTwice(ew: map<Edge, real>, es: seq<Edge>)
    requires BothWays(es, ew.Keys)
    ensures RealSum(Weights(ew, es)) == 2.0 * MapTotal(ew)
  {
    SumOfBoth(ew, es);
    ListPicksTotal(ew, es);
    forall i, j | 0 <= i < j < |es|
      ensures Swapped(es)[i] != Swapped(es)[j]
    {
      assert es[i] == Swap(Swapped(es)[i]) && es[j] == Swap(Swapped(es)[j]);
    }
    forall e: Edge | e in ew
      ensures e in Swapped(es)
    {
      assert Swap(e) in es;
      var i :| 0 <= i < |es| && es[i] == Swap(e);
      assert Swapped(es)[i] == e;
    }
    ListPicksTotal(ew, Swapped(es));
  }
}
