/** Boundary look-ups of the ADCIRC mesh format: which boundary lists an edge, and what lies across a levee. */
module Adcirc {
  datatype Option<T> = None | Some(value: T)

  /** A stretch of flux-specified boundary; levees list a back node for every front node. */
  datatype Segment = Segment(ibtype: nat, nbvv: seq<nat>, ibconn: seq<nat>) {
    predicate IsLevee() {
      ibtype % 10 == 4
    }

    /** What the format prescribes for a levee. */
    predicate Valid() {
      IsLevee() ==> |nbvv| == |ibconn| >= 2
    }
  }

  datatype Mesh = Mesh(nbdv: seq<seq<nat>>, segments: seq<Segment>, nbgn: seq<seq<nat>>)

  predicate AllValid(segments: seq<Segment>) {
    forall i | 0 <= i < |segments| :: segments[i].Valid()
  }

  // ----- has_edge -----

  /** The first position of a, or the end. */
  function Find(s: seq<nat>, a: nat): (i: nat)
    ensures i <= |s| && (i < |s| ==> s[i] == a) && forall j | 0 <= j < i :: s[j] != a
  {
    if s == [] then 0 else if s[0] == a then 0 else 1 + Find(s[1..], a)
  }

  /** Looks at both neighbours of the first a, then starts again on the tail behind it. */
  function HasEdge(s: seq<nat>, a: nat, b: nat): bool
    decreases |s|
  {
    var i := Find(s, a);
    if i == |s| then false
    else if i + 1 < |s| && s[i + 1] == b then true
    else if i > 0 && s[i - 1] == b then true
    else HasEdge(s[i + 1..], a, b)
  }

  predicate AdjacentAt(s: seq<nat>, i: int, a: nat, b: nat) {
    0 <= i < |s| - 1 && ((s[i] == a && s[i + 1] == b) || (s[i] == b && s[i + 1] == a))
  }

  /** The nodes are next to each other somewhere in the list, in either order. */
  ghost predicate Adjacent(s: seq<nat>, a: nat, b: nat) {
    exists i :: AdjacentAt(s, i, a, b)
  }

  /** Cutting the list behind a hit loses no edge, for all lists, also with repeated nodes. */
  lemma {:induction false} HasEdgeIff(s: seq<nat>, a: nat, b: nat)
    ensures HasEdge(s, a, b) <==> Adjacent(s, a, b)
    decreases |s|
  {
    var i := Find(s, a);
    if i == |s| {
    } else if i + 1 < |s| && s[i + 1] == b {
      assert AdjacentAt(s, i, a, b);
    } else if i > 0 && s[i - 1] == b {
      assert AdjacentAt(s, i - 1, a, b);
    } else {
      var tail := s[i + 1..];
      HasEdgeIff(tail, a, b);
      if j :| AdjacentAt(tail, j, a, b) {
        assert AdjacentAt(s, i + 1 + j, a, b);
      }
      if j :| AdjacentAt(s, j, a, b) {
        assert j > i;
        assert AdjacentAt(tail, j - i - 1, a, b);
      }
    }
  }

  // ----- get_internal_node_pair -----

  /** From position k on: the back nodes opposite (a, b), reversed. */
  function Opposite(front: seq<nat>, back: seq<nat>, a: nat, b: nat, k: nat): Option<(nat, nat)>
    requires |front| == |back| && k <= |front|
    decreases |front| - k
  {
    if k == |front| then None
    else if front[k] == a && k + 1 < |front| && front[k + 1] == b then Some((back[k + 1], back[k]))
    else if front[k] == a && k > 0 && front[k - 1] == b then Some((back[k - 1], back[k]))
    else Opposite(front, back, a, b, k + 1)
  }

  method SearchChain(front: seq<nat>, back: seq<nat>, a: nat, b: nat) returns (r: Option<(nat, nat)>)
    requires |front| == |back| >= 2
    ensures r == Opposite(front, back, a, b, 0)
  {
    var n := |front|;
    if front[0] == a && front[1] == b {
      return Some((back[1], back[0]));
    }
    for node := 1 to n - 1
      invariant Opposite(front, back, a, b, 0) == Opposite(front, back, a, b, node)
    {
      if front[node] == a {
        if front[node + 1] == b {
          return Some((back[node + 1], back[node]));
        } else if front[node - 1] == b {
          return Some((back[node - 1], back[node]));
        }
      }
    }
    if front[n - 1] == a && front[n - 2] == b {
      return Some((back[n - 2], back[n - 1]));
    }
    r := None;
  }

  /** The pair across the first levee that lists (a, b) in front or at the back. */
  function Across(segments: seq<Segment>, a: nat, b: nat): Option<(nat, nat)>
    requires AllValid(segments)
  {
    if segments == [] then None
    else if segments[0].IsLevee() then
      var s := segments[0];
      var front := Opposite(s.nbvv, s.ibconn, a, b, 0);
      var back := Opposite(s.ibconn, s.nbvv, a, b, 0);
      if front.Some? then front else if back.Some? then back else Across(segments[1..], a, b)
    else Across(segments[1..], a, b)
  }

  /** None where the program reports that it found no back nodes. */
  method GetInternalNodePair(segments: seq<Segment>, a: nat, b: nat) returns (r: Option<(nat, nat)>)
    requires AllValid(segments)
    ensures r == Across(segments, a, b)
  {
    for id := 0 to |segments|
      invariant Across(segments, a, b) == Across(segments[id..], a, b)
    {
      var s := segments[id];
      assert segments[id..][0] == s && segments[id..][1..] == segments[id + 1..];
      if s.IsLevee() {
        r := SearchChain(s.nbvv, s.ibconn, a, b);
        if r.Some? {
          return;
        }
        r := SearchChain(s.ibconn, s.nbvv, a, b);
        if r.Some? {
          return;
        }
      }
    }
    r := None;
  }

  /** What a search from position k finds, and when it finds something. */
  lemma {:induction false} OppositeFinds(front: seq<nat>, back: seq<nat>, a: nat, b: nat, k: nat)
    requires |front| == |back| && k <= |front|
    ensures Opposite(front, back, a, b, k).Some? ==>
              exists i, j :: SpotAt(front, back, a, b, i, j)
                  && Opposite(front, back, a, b, k) == Some((back[j], back[i]))
    ensures forall i, j | SpotAt(front, back, a, b, i, j) && k <= i :: Opposite(front, back, a, b, k).Some?
    decreases |front| - k
  {
    if k < |front| {
      OppositeFinds(front, back, a, b, k + 1);
      if front[k] == a && k + 1 < |front| && front[k + 1] == b {
        assert SpotAt(front, back, a, b, k, k + 1);
      } else if front[k] == a && k > 0 && front[k - 1] == b {
        assert SpotAt(front, back, a, b, k, k - 1);
      }
    }
  }

  /** a stands at i and b next to it at j. */
  predicate SpotAt(front: seq<nat>, back: seq<nat>, a: nat, b: nat, i: int, j: int) {
    && 0 <= i < |front| == |back| && 0 <= j < |front| && (j == i + 1 || i == j + 1) && front[i] == a && front[j] == b
  }

  /** No node is listed twice. */
  ghost predicate Apart(s: seq<nat>) {
    forall i, j | 0 <= i < j < |s| :: s[i] != s[j]
  }

  /** Going across and back returns to the edge. */
  lemma OppositeReturns(front: seq<nat>, back: seq<nat>, a: nat, b: nat)
    requires |front| == |back| && Apart(back) && Opposite(front, back, a, b, 0).Some?
    ensures var r := Opposite(front, back, a, b, 0).value;
            Opposite(back, front, r.0, r.1, 0) == Some((a, b)) && r.0 in back && r.1 in back && a in front && b in front
  {
    OppositeFinds(front, back, a, b, 0);
    var r := Opposite(front, back, a, b, 0).value;
    var i, j :| SpotAt(front, back, a, b, i, j) && r == (back[j], back[i]);
    assert SpotAt(back, front, r.0, r.1, j, i);
    OppositeFinds(back, front, r.0, r.1, 0);
    var i', j' :| SpotAt(back, front, r.0, r.1, i', j')
        && Opposite(back, front, r.0, r.1, 0) == Some((front[j'], front[i']));
    assert back[i'] == back[j] && back[j'] == back[i];
    assert i' == j && j' == i;
  }

  lemma NotListed(front: seq<nat>, back: seq<nat>, a: nat, b: nat)
    requires |front| == |back| && a !in front
    ensures Opposite(front, back, a, b, 0).None?
  {
    OppositeFinds(front, back, a, b, 0);
  }

  /** All nodes of all levees, front and back. */
  function Nodes(segments: seq<Segment>): seq<nat> {
    if segments == [] then []
    else (if segments[0].IsLevee() then segments[0].nbvv + segments[0].ibconn else []) + Nodes(segments[1..])
  }

  lemma {:induction false} AcrossListed(segments: seq<Segment>, a: nat, b: nat)
    requires AllValid(segments) && Apart(Nodes(segments)) && Across(segments, a, b).Some?
    ensures a in Nodes(segments) && Across(segments, a, b).value.0 in Nodes(segments)
  {
    var s, rest := segments[0], segments[1..];
    var here := if s.IsLevee() then s.nbvv + s.ibconn else [];
    ApartParts(here, Nodes(rest));
    if s.IsLevee() && Opposite(s.nbvv, s.ibconn, a, b, 0).Some? {
      ApartParts(s.nbvv, s.ibconn);
      OppositeReturns(s.nbvv, s.ibconn, a, b);
    } else if s.IsLevee() && Opposite(s.ibconn, s.nbvv, a, b, 0).Some? {
      ApartParts(s.nbvv, s.ibconn);
      OppositeReturns(s.ibconn, s.nbvv, a, b);
    } else {
      AcrossListed(rest, a, b);
    }
  }

  lemma ApartParts(a: seq<nat>, b: seq<nat>)
    requires Apart(a + b)
    ensures Apart(a) && Apart(b) && forall x | x in a :: x !in b
  {
    assert forall i | 0 <= i < |a| :: (a + b)[i] == a[i];
    assert forall j | 0 <= j < |b| :: (a + b)[|a| + j] == b[j];
  }

  /** When no node is listed twice, get_internal_node_pair is its own inverse. */
  lemma {:induction false} AcrossTwice(segments: seq<Segment>, a: nat, b: nat)
    requires AllValid(segments) && Apart(Nodes(segments)) && Across(segments, a, b).Some?
    ensures var r := Across(segments, a, b).value; Across(segments, r.0, r.1) == Some((a, b))
  {
    var s, rest, r := segments[0], segments[1..], Across(segments, a, b).value;
    var here := if s.IsLevee() then s.nbvv + s.ibconn else [];
    ApartParts(here, Nodes(rest));
    if s.IsLevee() {
      ApartParts(s.nbvv, s.ibconn);
      if Opposite(s.nbvv, s.ibconn, a, b, 0).Some? {
        OppositeReturns(s.nbvv, s.ibconn, a, b);
        NotListed(s.nbvv, s.ibconn, r.0, r.1);
      } else if Opposite(s.ibconn, s.nbvv, a, b, 0).Some? {
        OppositeReturns(s.ibconn, s.nbvv, a, b);
      } else {
        AcrossListed(rest, a, b);
        AcrossTwice(rest, a, b);
        NotListed(s.nbvv, s.ibconn, r.0, r.1);
        NotListed(s.ibconn, s.nbvv, r.0, r.1);
      }
    } else {
      AcrossTwice(rest, a, b);
    }
  }

  // ----- get_ibtype -----

  datatype BoundaryType = Land | Tide | Flow | Function | Outflow | Levee

  ghost predicate InAny(lists: seq<seq<nat>>, a: nat, b: nat) {
    exists s :: s in lists && Adjacent(s, a, b)
  }

  method FindIn(lists: seq<seq<nat>>, a: nat, b: nat) returns (found: bool)
    ensures found <==> InAny(lists, a, b)
  {
    for i := 0 to |lists|
      invariant forall j | 0 <= j < i :: !Adjacent(lists[j], a, b)
    {
      HasEdgeIff(lists[i], a, b);
      if HasEdge(lists[i], a, b) {
        return true;
      }
    }
    found := false;
  }

  /** The type a segment gives to an edge it lists; islands have none. */
  function TypeOfSegment(s: Segment): Option<BoundaryType> {
    if s.ibtype % 10 == 0 then Some(Land)
    else if s.ibtype % 10 == 2 then Some(Flow)
    else if s.ibtype % 10 == 4 then Some(Levee)
    else if s.ibtype == 77 then Some(Function)
    else if s.ibtype == 88 then Some(Outflow)
    else None
  }

  ghost predicate Lists(s: Segment, a: nat, b: nat) {
    TypeOfSegment(s).Some? && (Adjacent(s.nbvv, a, b) || (s.IsLevee() && Adjacent(s.ibconn, a, b)))
  }

  /**
   Open boundaries first, then the first segment that lists the edge, then generic boundaries; else the program gives
   up.
   */
  method GetIbtype(m: Mesh, a: nat, b: nat) returns (r: Option<BoundaryType>)
    ensures InAny(m.nbdv, a, b) ==> r == Some(Tide)
    ensures !InAny(m.nbdv, a, b) ==> forall i | FirstLister(m.segments, a, b, i) :: r == TypeOfSegment(m.segments[i])
    ensures !InAny(m.nbdv, a, b) && (forall s | s in m.segments :: !Lists(s, a, b)) ==>
              r == if InAny(m.nbgn, a, b) then Some(Land) else None
  {
    var open := FindIn(m.nbdv, a, b);
    if open {
      return Some(Tide);
    }
    for id := 0 to |m.segments|
      invariant forall j | 0 <= j < id :: !Lists(m.segments[j], a, b)
    {
      var s := m.segments[id];
      assert s in m.segments;
      HasEdgeIff(s.nbvv, a, b);
      HasEdgeIff(s.ibconn, a, b);
      if s.ibtype % 10 == 0 {
        if HasEdge(s.nbvv, a, b) { return Some(Land); }
      } else if s.ibtype % 10 == 2 {
        if HasEdge(s.nbvv, a, b) { return Some(Flow); }
      } else if s.ibtype % 10 == 4 {
        if HasEdge(s.nbvv, a, b) || HasEdge(s.ibconn, a, b) { return Some(Levee); }
      } else if s.ibtype == 77 {
        if HasEdge(s.nbvv, a, b) { return Some(Function); }
      } else if s.ibtype == 88 {
        if HasEdge(s.nbvv, a, b) { return Some(Outflow); }
      }
    }
    var generic := FindIn(m.nbgn, a, b);
    r := if generic then Some(Land) else None;
  }

  ghost predicate FirstLister(segments: seq<Segment>, a: nat, b: nat, i: int) {
    0 <= i < |segments| && Lists(segments[i], a, b) && forall j | 0 <= j < i :: !Lists(segments[j], a, b)
  }

  /** An edge that some levee lists has an edge across it, so the look-up that follows get_ibtype never fails. */
  lemma {:induction false} LeveeHasOtherSide(segments: seq<Segment>, a: nat, b: nat, i: nat)
    requires AllValid(segments) && i < |segments| && segments[i].IsLevee() && Lists(segments[i], a, b)
    ensures Across(segments, a, b).Some?
  {
    if i > 0 {
      LeveeHasOtherSide(segments[1..], a, b, i - 1);
    } else {
      var s := segments[0];
      OppositeFinds(s.nbvv, s.ibconn, a, b, 0);
      OppositeFinds(s.ibconn, s.nbvv, a, b, 0);
      if Adjacent(s.nbvv, a, b) {
        AdjacentIsSpot(s.nbvv, s.ibconn, a, b);
      } else {
        AdjacentIsSpot(s.ibconn, s.nbvv, a, b);
      }
    }
  }

  lemma AdjacentIsSpot(front: seq<nat>, back: seq<nat>, a: nat, b: nat)
    requires Adjacent(front, a, b) && |front| == |back|
    ensures exists i, j :: SpotAt(front, back, a, b, i, j) && i >= 0
  {
    var k :| AdjacentAt(front, k, a, b);
    assert SpotAt(front, back, a, b, k, k + 1) || SpotAt(front, back, a, b, k + 1, k);
  }
}
