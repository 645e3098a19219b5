/**
 The whole preparation of a mesh: neighbours, ranks, marked faces, cut pairs and the lists written for each pair of
 units.  Its result is what reading, initialization, numbering and the exchange rely on.
 */
module Preparation {
  import opened EdgeTypes
  import opened Sides
  import E = EdgeDictionary
  import opened Partitioning
  import opened DistributedInterfaces
  import opened MirroredReading
  import R = RawBoundaries
  import opened FaceFates
  import opened MeshTables

  /** Which submesh each element is in, and which node each submesh is on, in visiting order. */
  datatype Assignment = Assignment(part: map<nat, nat>, placed: seq<Placed>, nodes: nat, ranks: nat) {
    ghost predicate Valid() {
      && ranks > 0 && nodes > 0 && NodesBelow(placed, nodes) && DistinctParts(placed)
      && forall e | e in part :: exists i :: 0 <= i < |placed| && placed[i].part == part[e]
    }
  }

  /** Boundary types are of kinds the problem knows, and barriers are levees. */
  ghost predicate KnownTypes(file: E.MeshFile, kinds: seq<nat>) {
    && R.Kinds(kinds)
    && forall k | k in file.ibtype ::
         (IsBoundary(file.ibtype[k]) ==> file.ibtype[k] in kinds)
             && (IsInternal(file.ibtype[k]) ==> file.ibtype[k] == R.LEVEE)
  }

  // ----- types -----

  /** A face alone on its edge has a type of the file. */
  lemma LoneType(tris: seq<E.Triangle>, file: E.MeshFile, t: E.Tables, kinds: seq<nat>, j: nat)
    requires E.Built(tris, file, t) && KnownTypes(file, kinds) && Lone(tris, j)
    ensures var b := E.Lookup(t.btype, E.FaceUse(tris, j));
            (IsBoundary(b) ==> b in kinds) && (IsInternal(b) ==> b == R.LEVEE)
  {
    E.LonelyFaceIsRim(tris, file, t, j);
  }

  /** Internal faces are plain or levees. */
  lemma FaceType(tris: seq<E.Triangle>, file: E.MeshFile, t: E.Tables, kinds: seq<nat>, s: Side)
    requires E.Built(tris, file, t) && Sound(tris, file) && KnownTypes(file, kinds) && s in Faces(tris)
    ensures var b := Types(tris, t)[s];
            (IsBoundary(b) ==> b in kinds) && (IsInternal(b) ==> b == INTERNAL || b == R.LEVEE)
  {
    var j := FaceIndex(tris, s);
    if i :| E.Shared(tris, j, i) {
      E.ManifoldNeighbors(tris, file, t, j, i);
    } else {
      LoneType(tris, file, t, kinds, j);
    }
  }

  /** Joined faces have one type. */
  lemma JoinedTypes(tris: seq<E.Triangle>, file: E.MeshFile, t: E.Tables, kinds: seq<nat>, i: nat, j: nat)
    requires E.Built(tris, file, t) && Sound(tris, file) && KnownTypes(file, kinds) && Joined(tris, file, i, j)
    ensures E.Lookup(t.btype, E.FaceUse(tris, i)) == E.Lookup(t.btype, E.FaceUse(tris, j))
  {
    if E.Shared(tris, i, j) {
      assert E.Shared(tris, j, i);
      E.ManifoldNeighbors(tris, file, t, i, j);
      E.ManifoldNeighbors(tris, file, t, j, i);
    } else {
      LoneType(tris, file, t, kinds, i);
      LoneType(tris, file, t, kinds, j);
      BarrierFace(tris, file, t, i, j);
      BarrierFace(tris, file, t, j, i);
    }
  }

  /** A face and the face beyond have one type. */
  lemma SameTypeBeyond(tris: seq<E.Triangle>, file: E.MeshFile, t: E.Tables, kinds: seq<nat>, s: Side)
    requires E.Built(tris, file, t) && Sound(tris, file) && KnownTypes(file, kinds)
    requires s in Faces(tris) && Neighbours(tris, t)[s] != DEFAULT_ID
    ensures Far(Neighbours(tris, t), s) in Faces(tris)
    ensures Types(tris, t)[Far(Neighbours(tris, t), s)] == Types(tris, t)[s]
  {
    TablesAreSimple(tris, file, t);
    var neighbor := Neighbours(tris, t);
    FarTwice(neighbor, s);
    var j, i := JoinedFace(tris, file, t, s);
    assert Joined(tris, file, i, j);
    FaceCases(tris, file, t, i);
    var far := E.FaceUse(tris, i);
    assert far in Faces(tris) && neighbor[far] == s.elt;
    assert Far(neighbor, s) == far;
    JoinedTypes(tris, file, t, kinds, i, j);
  }

  // ----- codes -----

  /** Elements have one code exactly when they are in one submesh. */
  lemma CodesFollowParts(a: Assignment, rankOf: map<nat, nat>, localOf: map<nat, nat>, e: nat, f: nat)
    requires a.Valid() && AssignedUpTo(a.placed, a.ranks, |a.placed|, rankOf, localOf) && e in a.part && f in a.part
    ensures a.part[e] in rankOf && a.part[e] in localOf && a.part[f] in rankOf && a.part[f] in localOf
    ensures Code(a.nodes * a.ranks, rankOf[a.part[e]], localOf[a.part[e]])
            == Code(a.nodes * a.ranks, rankOf[a.part[f]], localOf[a.part[f]])
       <==> a.part[e] == a.part[f]
  {
    var i :| 0 <= i < |a.placed| && a.placed[i].part == a.part[e];
    var j :| 0 <= j < |a.placed| && a.placed[j].part == a.part[f];
    assert Assigned(a.placed, a.ranks, i, rankOf, localOf) && Assigned(a.placed, a.ranks, j, rankOf, localOf);
    RankBelow(a, i);
    RankBelow(a, j);
    if i < j {
      CodesNameParts(a.placed, a.ranks, rankOf, localOf, a.nodes * a.ranks, i, j);
    } else if j < i {
      CodesNameParts(a.placed, a.ranks, rankOf, localOf, a.nodes * a.ranks, j, i);
    }
  }

  lemma RankBelow(a: Assignment, i: nat)
    requires a.Valid() && i < |a.placed|
    ensures RankAt(a.placed, a.ranks, i) < a.nodes * a.ranks
  {
    RankInRange(OnNode(a.placed, i, a.placed[i].node) % a.ranks, a.ranks, a.placed[i].node, a.nodes);
  }

  function Codes(a: Assignment, rankOf: map<nat, nat>, localOf: map<nat, nat>): map<nat, nat>
    requires forall e | e in a.part :: a.part[e] in rankOf && a.part[e] in localOf
  {
    map e | e in a.part :: Code(a.nodes * a.ranks, rankOf[a.part[e]], localOf[a.part[e]])
  }

  lemma PartsPlaced(a: Assignment, rankOf: map<nat, nat>, localOf: map<nat, nat>)
    requires a.Valid() && AssignedUpTo(a.placed, a.ranks, |a.placed|, rankOf, localOf)
    ensures forall e | e in a.part :: a.part[e] in rankOf && a.part[e] in localOf
  {
    forall e | e in a.part
      ensures a.part[e] in rankOf && a.part[e] in localOf
    {
      CodesFollowParts(a, rankOf, localOf, e, e);
    }
  }

  /** Elements share a code exactly when they share a submesh. */
  ghost predicate SameClasses(part: map<nat, nat>, code: map<nat, nat>) {
    && code.Keys == part.Keys
    && forall e, f | e in part && f in part :: code[e] == code[f] <==> part[e] == part[f]
  }

  /** The code of every element, by round robin over the ranks of the submeshes' nodes. */
  method AssignCodes(a: Assignment)
    returns (code: map<nat, nat>, ghost rankOf: map<nat, nat>, ghost localOf: map<nat, nat>)
    requires a.Valid()
    ensures AssignedUpTo(a.placed, a.ranks, |a.placed|, rankOf, localOf)
    ensures forall e | e in a.part :: a.part[e] in rankOf && a.part[e] in localOf
    ensures code == Codes(a, rankOf, localOf) && SameClasses(a.part, code)
  {
    var ranks, locals, counts := RoundRobin(a.placed, a.nodes, a.ranks);
    rankOf, localOf := ranks, locals;
    PartsPlaced(a, ranks, locals);
    code := Codes(a, ranks, locals);
    forall e, f | e in a.part && f in a.part
      ensures code[e] == code[f] <==> a.part[e] == a.part[f]
    {
      CodesFollowParts(a, ranks, locals, e, f);
    }
  }

  lemma SameSplits(neighbor: map<Side, nat>, part: map<nat, nat>, code: map<nat, nat>)
    requires SameClasses(part, code)
    ensures forall s :: Split(neighbor, part, s) <==> Split(neighbor, code, s)
  {
  }

  // ----- visiting orders -----

  method EnumeratePairs(pairs: set<(nat, nat)>) returns (order: seq<(nat, nat)>)
    ensures forall k :: k in pairs <==> k in order
    ensures forall i, j | 0 <= i < j < |order| :: order[i] != order[j]
  {
    order := [];
    var rest := pairs;
    while rest != {}
      invariant forall k :: k in pairs <==> k in order || k in rest
      invariant forall k | k in order :: k !in rest
      invariant forall i, j | 0 <= i < j < |order| :: order[i] != order[j]
      decreases rest
    {
      var k :| k in rest;
      order := order + [k];
      rest := rest - {k};
    }
  }

  // ----- the preparation -----

  datatype Outcome = Failed | Ready(w: Prepared)

  /** From the mesh file and the assignment of its elements to everything that is written for the units. */
  method Prepare(tris: seq<E.Triangle>, file: E.MeshFile, a: Assignment, p: nat, kinds: seq<nat>)
    returns (r: Outcome, marked: map<Side, nat>)
    requires E.ValidInput(tris) && E.Holds(file, tris) && Sound(tris, file) && KnownTypes(file, kinds)
    requires a.Valid() && forall e :: e in Ids(tris) <==> e in a.part
    ensures r.Ready? <==> forall j | 0 <= j < 3 * |tris| && |E.AllUsers(tris, j)| == 1 ::
              E.RimOfFace(tris, file, j).Rim?
    ensures r.Ready? ==> r.w.Valid() && marked == Marked(r.w) && r.w.elements == Ids(tris)
    ensures r.Ready? ==> forall s :: r.w.Cut(s) <==> Split(r.w.neighbor, a.part, s)
  {
    var built := E.Construct(tris, file);
    if !built.Done? {
      return Failed, map[];
    }
    var t := built.tables;
    TablesAreSimple(tris, file, t);
    var w: Prepared;
    w, marked := Write(Ids(tris), Neighbours(tris, t), Types(tris, t), a, p, kinds);
    ghost var types := Types(tris, t);
    forall s | s in types
      ensures IsBoundary(types[s]) ==> types[s] in kinds
      ensures IsInternal(types[s]) ==> types[s] == INTERNAL || types[s] == R.LEVEE
      ensures IsInternal(types[s]) && Far(w.neighbor, s) in types ==> types[Far(w.neighbor, s)] == types[s]
    {
      FaceType(tris, file, t, kinds, s);
      if IsInternal(types[s]) {
        SameTypeBeyond(tris, file, t, kinds, s);
      }
    }
    r := Ready(w);
  }

  /** Ranks, marks, cut pairs and lists for a mesh with simple tables. */
  method Write(elements: seq<nat>, neighbor: map<Side, nat>, btype: map<Side, nat>, a: Assignment, p: nat,
               kinds: seq<nat>)
    returns (w: Prepared, marked: map<Side, nat>)
    requires Simple(neighbor) && Typed(elements, neighbor, btype) && a.Valid() && forall e ::
               e in elements <==> e in a.part
    ensures w.elements == elements && w.neighbor == neighbor && w.btype == btype && w.kinds == kinds
    ensures Written(neighbor, w.code, w.order, w.p, w.shared, w.keys, w.numLoc) && w.code.Keys == a.part.Keys
    ensures marked == Marked(w) && forall s :: w.Cut(s) <==> Split(neighbor, a.part, s)
  {
    var code, rankOf, localOf := AssignCodes(a);
    var order: seq<(nat, nat)>;
    order, marked := FindCuts(elements, neighbor, btype, a.part);
    SameCuts(neighbor, a.part, code, order);
    SomeUnits(a.nodes, a.ranks);
    var numLoc := a.nodes * a.ranks;
    var shared, keys := WriteLists(elements, neighbor, code, order, p, numLoc);
    w := Prepared(elements, neighbor, btype, code, order, p, shared, keys, numLoc, kinds);
    MarkedAsSplit(w, a.part, marked);
  }

  lemma MarkedAsSplit(w: Prepared, part: map<nat, nat>, marked: map<Side, nat>)
    requires SameClasses(part, w.code) && marked.Keys == w.btype.Keys
    requires forall s | s in w.btype ::
               marked[s] == if Split(w.neighbor, part, s) then Distributed(w.btype[s]) else w.btype[s]
    ensures marked == Marked(w) && forall s :: w.Cut(s) <==> Split(w.neighbor, part, s)
  {
    SameSplits(w.neighbor, part, w.code);
  }

  /** The lists of cut faces for every pair of units, and the pairs in the order they are written. */
  method WriteLists(elements: seq<nat>, neighbor: map<Side, nat>, code: map<nat, nat>, order: seq<(nat, nat)>, p: nat,
                    numLoc: nat)
    returns (shared: Shared, keys: seq<(nat, nat)>)
    requires FullTable(elements, neighbor) && Setting(neighbor, code, order) && numLoc > 0
    requires forall pair | pair in order :: pair.0 in elements && pair.1 in elements
    ensures Written(neighbor, code, order, p, shared, keys, numLoc)
  {
    shared := BuildShared(elements, neighbor, code, order, p);
    keys := EnumeratePairs(shared.Keys);
  }

  lemma SomeUnits(nodes: nat, ranks: nat)
    requires nodes > 0 && ranks > 0
    ensures nodes * ranks > 0
  {
  }

  /** Marks the faces between submeshes, and lists their pairs. */
  method FindCuts(elements: seq<nat>, neighbor: map<Side, nat>, btype: map<Side, nat>, part: map<nat, nat>)
    returns (order: seq<(nat, nat)>, marked: map<Side, nat>)
    requires Simple(neighbor) && Typed(elements, neighbor, btype) && forall e :: e in elements <==> e in part
    ensures marked.Keys == btype.Keys
    ensures forall s | s in btype :: marked[s] == if Split(neighbor, part, s) then Distributed(btype[s]) else btype[s]
    ensures ListsCuts(neighbor, part, order)
  {
    var joined := InternalPairs(elements, neighbor, btype);
    var edges := EnumeratePairs(joined);
    EdgesListed(elements, neighbor, btype, edges);
    marked := MarkSplitFaces(elements, neighbor, btype, part, edges);
    var cut := CutPairs(elements, neighbor, btype, marked);
    forall pair
      ensures pair in cut <==> CutPair(neighbor, part, pair)
    {
      CutPairsAreSplit(elements, neighbor, btype, marked, part, pair);
    }
    order := EnumeratePairs(cut);
  }

  lemma EdgesListed(elements: seq<nat>, neighbor: map<Side, nat>, btype: map<Side, nat>, edges: seq<(nat, nat)>)
    requires Simple(neighbor) && Typed(elements, neighbor, btype)
    requires forall k :: k in edges <==> JoinedBy(neighbor, btype, k)
    requires forall i, j | 0 <= i < j < |edges| :: edges[i] != edges[j]
    ensures ListsEdges(neighbor, edges) && DEFAULT_ID !in elements
    ensures forall s | s in neighbor && neighbor[s] != DEFAULT_ID :: neighbor[s] in elements
  {
    var none := Side(DEFAULT_ID, 0);
    assert none in neighbor <==> none.elt in elements && none.face < 3;
    forall s | s in neighbor && neighbor[s] != DEFAULT_ID
      ensures neighbor[s] in elements && JoinedBy(neighbor, btype, PairOf(neighbor, s))
    {
      FarTwice(neighbor, s);
      assert Far(neighbor, s) in neighbor;
    }
    forall p | JoinedBy(neighbor, btype, p)
      ensures exists s :: s in neighbor && neighbor[s] != DEFAULT_ID && PairOf(neighbor, s) == p
    {
      var s :| s in neighbor && s in btype && IsInternal(btype[s]) && PairOf(neighbor, s) == p;
      assert neighbor[s] != DEFAULT_ID;
    }
  }

  /** The cuts by submesh are the cuts by unit. */
  lemma SameCuts(neighbor: map<Side, nat>, part: map<nat, nat>, code: map<nat, nat>, order: seq<(nat, nat)>)
    requires ListsCuts(neighbor, part, order) && SameClasses(part, code)
    ensures ListsCuts(neighbor, code, order) && Coded(code, order)
    ensures forall pair | pair in order :: pair.0 in part && pair.1 in part
  {
    SameSplits(neighbor, part, code);
    forall pair
      ensures CutPair(neighbor, part, pair) <==> CutPair(neighbor, code, pair)
      ensures CutPair(neighbor, part, pair) ==> pair.0 in part && pair.1 in part
    {
      if CutPair(neighbor, part, pair) {
        var s :| Split(neighbor, part, s) && PairOf(neighbor, s) == pair;
        assert Split(neighbor, code, s);
      }
      if CutPair(neighbor, code, pair) {
        var s :| Split(neighbor, code, s) && PairOf(neighbor, s) == pair;
        assert Split(neighbor, part, s);
      }
    }
  }
}
