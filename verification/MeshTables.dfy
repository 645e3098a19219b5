/** The element tables that the edge dictionary leaves are the tables that partitioning and pairing rely on. */
module MeshTables {
  import opened EdgeTypes
  import opened Sides
  import Adcirc
  import E = EdgeDictionary
  import opened Partitioning
  import opened DistributedInterfaces
  import opened MirroredReading

  /** The face's place in the list. */
  ghost predicate IsFace(tris: seq<E.Triangle>, j: nat, s: Side) {
    j < 3 * |tris| && E.FaceUse(tris, j) == s
  }

  function Ids(tris: seq<E.Triangle>): (ids: seq<nat>)
    ensures |ids| == |tris|
  {
    seq(|tris|, i requires 0 <= i < |tris| => tris[i].id)
  }

  function Faces(tris: seq<E.Triangle>): set<Side> {
    set j | 0 <= j < 3 * |tris| :: E.FaceUse(tris, j)
  }

  function Neighbours(tris: seq<E.Triangle>, t: E.Tables): map<Side, nat> {
    map s | s in Faces(tris) :: E.Lookup(t.neighbor, s)
  }

  function Types(tris: seq<E.Triangle>, t: E.Tables): map<Side, nat> {
    map s | s in Faces(tris) :: E.Lookup(t.btype, s)
  }

  /** No other face lies on the face's edge. */
  ghost predicate Lone(tris: seq<E.Triangle>, j: nat) {
    j < 3 * |tris| && forall i :: !E.Shared(tris, j, i)
  }

  /** The face lies on a barrier, such as a levee. */
  predicate OnBarrier(tris: seq<E.Triangle>, file: E.MeshFile, j: nat)
    requires j < 3 * |tris|
  {
    E.KeyAt(tris, j) in file.ibtype && IsInternal(file.ibtype[E.KeyAt(tris, j)])
  }

  /** From face j, face i lies across a barrier. */
  ghost predicate Across(tris: seq<E.Triangle>, file: E.MeshFile, j: nat, i: nat) {
    && Lone(tris, j) && Lone(tris, i) && OnBarrier(tris, file, j)
    && var nodes := E.FaceNodes(tris[j / 3], j % 3);
       nodes in file.across && E.Key(file.across[nodes].0, file.across[nodes].1) == E.KeyAt(tris, i)
  }

  /** The file describes barriers from both sides. */
  ghost predicate BarriersPaired(tris: seq<E.Triangle>, file: E.MeshFile) {
    forall j | Lone(tris, j) && OnBarrier(tris, file, j) :: exists i ::
          Across(tris, file, j, i) && Across(tris, file, i, j)
  }

  /** Two faces share an edge, or lie across a barrier from each other. */
  ghost predicate Joined(tris: seq<E.Triangle>, file: E.MeshFile, i: nat, j: nat) {
    E.Shared(tris, i, j) || (Across(tris, file, i, j) && Across(tris, file, j, i))
  }

  /** No triangle is joined to itself, and two triangles are joined at most once. */
  ghost predicate Proper(tris: seq<E.Triangle>, file: E.MeshFile) {
    && (forall i, j | Joined(tris, file, i, j) :: i / 3 != j / 3)
    && (forall i, j, i', j' | Joined(tris, file, i, j) && Joined(tris, file, i', j') && i / 3 == i' / 3
        && j / 3 == j' / 3 ::
          i == i')
  }

  /** The file's node pairs across barriers are those that the levee segments list. */
  ghost predicate LeveesOf(file: E.MeshFile, segments: seq<Adcirc.Segment>)
    requires Adcirc.AllValid(segments)
  {
    forall a: nat, b: nat ::
          if Adcirc.Across(segments, a, b).Some? then (a, b) in file.across
              && file.across[(a, b)] == Adcirc.Across(segments, a, b).value
                   else (a, b) !in file.across
  }

  /** When no levee node is listed twice, going across a barrier and back returns to the face. */
  lemma LeveesAreMutual(tris: seq<E.Triangle>, file: E.MeshFile, segments: seq<Adcirc.Segment>, j: nat, i: nat)
    requires Adcirc.AllValid(segments) && Adcirc.Apart(Adcirc.Nodes(segments)) && LeveesOf(file, segments)
    requires Lone(tris, j) && Lone(tris, i) && OnBarrier(tris, file, j) && OnBarrier(tris, file, i)
    requires var nodes := E.FaceNodes(tris[j / 3], j % 3);
             nodes in file.across && file.across[nodes] == E.FaceNodes(tris[i / 3], i % 3)
    ensures Across(tris, file, j, i) && Across(tris, file, i, j)
  {
    var nodes := E.FaceNodes(tris[j / 3], j % 3);
    assert Adcirc.Across(segments, nodes.0, nodes.1).Some?;
    Adcirc.AcrossTwice(segments, nodes.0, nodes.1);
    var far := file.across[nodes];
    assert Adcirc.Across(segments, far.0, far.1).Some?;
  }

  /** What the constructor needs of the file for consistent tables. */
  ghost predicate Sound(tris: seq<E.Triangle>, file: E.MeshFile) {
    && E.Manifold(tris) && BarriersPaired(tris, file) && Proper(tris, file)
    && forall k | k in file.ibtype :: !IsDistributed(file.ibtype[k])
  }

  lemma FacesAreFull(tris: seq<E.Triangle>, t: E.Tables)
    ensures FullTable(Ids(tris), Neighbours(tris, t)) && FullTable(Ids(tris), Types(tris, t))
  {
    forall s: Side
      ensures s in Faces(tris) <==> s.elt in Ids(tris) && s.face < 3
    {
      if s.elt in Ids(tris) && s.face < 3 {
        var i :| 0 <= i < |tris| && Ids(tris)[i] == s.elt;
        assert E.FaceUse(tris, 3 * i + s.face) == s;
      }
      if j :| 0 <= j < 3 * |tris| && E.FaceUse(tris, j) == s {
        assert Ids(tris)[j / 3] == s.elt;
      }
    }
  }

  /** A face on a barrier gets the element across. */
  lemma BarrierFace(tris: seq<E.Triangle>, file: E.MeshFile, t: E.Tables, j: nat, i: nat)
    requires E.Built(tris, file, t) && Across(tris, file, j, i)
    ensures IsInternal(E.Lookup(t.btype, E.FaceUse(tris, j)))
    ensures E.Lookup(t.neighbor, E.FaceUse(tris, j)) == tris[i / 3].id
  {
    E.LonelyFaceIsRim(tris, file, t, j);
    E.OneUser(tris, i);
  }

  /** A face has a neighbour, and is internal, exactly when it is joined. */
  lemma FaceCases(tris: seq<E.Triangle>, file: E.MeshFile, t: E.Tables, j: nat)
    requires E.Built(tris, file, t) && Sound(tris, file) && j < 3 * |tris|
    ensures !IsDistributed(E.Lookup(t.btype, E.FaceUse(tris, j)))
    ensures forall i | Joined(tris, file, j, i) ::
              IsInternal(E.Lookup(t.btype, E.FaceUse(tris, j)))
                  && E.Lookup(t.neighbor, E.FaceUse(tris, j)) == tris[i / 3].id != DEFAULT_ID
    ensures (forall i :: !Joined(tris, file, j, i)) ==>
              E.Lookup(t.neighbor, E.FaceUse(tris, j)) == DEFAULT_ID
                  && IsBoundary(E.Lookup(t.btype, E.FaceUse(tris, j)))
  {
    forall i | Joined(tris, file, j, i)
      ensures IsInternal(E.Lookup(t.btype, E.FaceUse(tris, j)))
      ensures E.Lookup(t.neighbor, E.FaceUse(tris, j)) == tris[i / 3].id != DEFAULT_ID
    {
      assert tris[i / 3].Is32Bit();
      if E.Shared(tris, j, i) {
        E.ManifoldNeighbors(tris, file, t, j, i);
      } else {
        BarrierFace(tris, file, t, j, i);
      }
    }
    if i :| E.Shared(tris, j, i) {
      E.ManifoldNeighbors(tris, file, t, j, i);
      assert Joined(tris, file, j, i);
    } else {
      E.LonelyFaceIsRim(tris, file, t, j);
      if OnBarrier(tris, file, j) {
        assert Lone(tris, j);
        var i :| Across(tris, file, j, i) && Across(tris, file, i, j);
        assert Joined(tris, file, j, i);
      }
    }
  }

  lemma SameTriangle(tris: seq<E.Triangle>, i: nat, j: nat)
    requires E.ValidInput(tris) && i < 3 * |tris| && j < 3 * |tris|
    ensures tris[i / 3].id == tris[j / 3].id <==> i / 3 == j / 3
    ensures E.FaceUse(tris, i) == E.FaceUse(tris, j) <==> i == j
  {
    if i < j {
      E.FaceUsesDiffer(tris, i, j);
    } else if j < i {
      E.FaceUsesDiffer(tris, j, i);
    }
    assert i / 3 < j / 3 ==> tris[i / 3].id != tris[j / 3].id;
    assert j / 3 < i / 3 ==> tris[j / 3].id != tris[i / 3].id;
  }

  lemma FaceIndex(tris: seq<E.Triangle>, s: Side) returns (j: nat)
    requires s in Faces(tris)
    ensures IsFace(tris, j, s)
  {
    j :| 0 <= j < 3 * |tris| && E.FaceUse(tris, j) == s;
  }

  /** A face with a neighbour is joined to a face of that neighbour. */
  lemma JoinedFace(tris: seq<E.Triangle>, file: E.MeshFile, t: E.Tables, s: Side) returns (j: nat, i: nat)
    requires E.Built(tris, file, t) && Sound(tris, file)
    requires s in Faces(tris) && Neighbours(tris, t)[s] != DEFAULT_ID
    ensures IsFace(tris, j, s) && Joined(tris, file, j, i) && Neighbours(tris, t)[s] == tris[i / 3].id
  {
    j := FaceIndex(tris, s);
    FaceCases(tris, file, t, j);
    i :| Joined(tris, file, j, i);
  }

  lemma FaceLooksBack(tris: seq<E.Triangle>, file: E.MeshFile, t: E.Tables, s: Side)
    requires E.Built(tris, file, t) && Sound(tris, file)
    requires s in Faces(tris) && Neighbours(tris, t)[s] != DEFAULT_ID
    ensures Neighbours(tris, t)[s] != s.elt && FaceTowards(Neighbours(tris, t), Neighbours(tris, t)[s], s.elt) < 3
  {
    var j, i := JoinedFace(tris, file, t, s);
    SameTriangle(tris, i, j);
    assert Joined(tris, file, i, j);
    FaceCases(tris, file, t, i);
    var far := E.FaceUse(tris, i);
    assert far in Faces(tris) && far.face < 3;
    assert Neighbours(tris, t)[far] == s.elt;
    var back := FaceTowards(Neighbours(tris, t), Neighbours(tris, t)[s], s.elt);
    assert far == Side(Neighbours(tris, t)[s], far.face);
  }

  lemma OneSharedFace(tris: seq<E.Triangle>, file: E.MeshFile, t: E.Tables, s: Side, r: Side)
    requires E.Built(tris, file, t) && Sound(tris, file)
    requires s in Faces(tris) && r in Faces(tris) && s.elt == r.elt
    requires Neighbours(tris, t)[s] == Neighbours(tris, t)[r] != DEFAULT_ID
    ensures s == r
  {
    var j, i := JoinedFace(tris, file, t, s);
    var j', i' := JoinedFace(tris, file, t, r);
    SameTriangle(tris, j, j');
    SameTriangle(tris, i, i');
  }

  lemma NeighbourIffInternal(tris: seq<E.Triangle>, file: E.MeshFile, t: E.Tables, s: Side)
    requires E.Built(tris, file, t) && Sound(tris, file) && s in Faces(tris)
    ensures s.face < 3 && s.elt != DEFAULT_ID && !IsDistributed(Types(tris, t)[s])
    ensures Neighbours(tris, t)[s] != DEFAULT_ID <==> IsInternal(Types(tris, t)[s])
  {
    var j := FaceIndex(tris, s);
    assert tris[j / 3].Is32Bit();
    FaceCases(tris, file, t, j);
    if i :| Joined(tris, file, j, i) {
      assert Neighbours(tris, t)[s] == tris[i / 3].id;
    }
  }

  /**
   From a sound mesh file, with or without levees, the constructor gets tables with symmetric neighbours and one shared
   face per pair, in which the internal faces are those with a neighbour.
   */
  lemma TablesAreSimple(tris: seq<E.Triangle>, file: E.MeshFile, t: E.Tables)
    requires E.Built(tris, file, t) && Sound(tris, file)
    ensures Simple(Neighbours(tris, t)) && Typed(Ids(tris), Neighbours(tris, t), Types(tris, t))
  {
    FacesAreFull(tris, t);
    var neighbor, btype := Neighbours(tris, t), Types(tris, t);
    forall s | s in Faces(tris)
      ensures s.face < 3 && s.elt != DEFAULT_ID
      ensures (neighbor[s] != DEFAULT_ID <==> IsInternal(btype[s])) && !IsDistributed(btype[s])
    {
      NeighbourIffInternal(tris, file, t, s);
    }
    forall s | s in Faces(tris) && neighbor[s] != DEFAULT_ID
      ensures neighbor[s] != s.elt && FaceTowards(neighbor, neighbor[s], s.elt) < 3
    {
      FaceLooksBack(tris, file, t, s);
    }
    forall s, r | s in Faces(tris) && r in Faces(tris) && s.elt == r.elt && neighbor[s] == neighbor[r] != DEFAULT_ID
      ensures s == r
    {
      OneSharedFace(tris, file, t, s, r);
    }
  }
}
