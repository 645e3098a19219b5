/**
 From a list of triangles to neighbours: the edge dictionary of the MeshMetaData constructor.
 Edges are found under a 64-bit key made of their two node ids; the iteration orders of the
 unordered containers are arbitrary and appear as the order of the input sequences.
 */
module EdgeDictionary {
  import opened EdgeTypes
  import opened Sides

  const WORD: nat := 0x1_0000_0000

  datatype Triangle = Triangle(id: nat, n0: nat, n1: nat, n2: nat) {
    function Node(i: nat): nat
      requires i < 3
    {
      if i == 0 then n0 else if i == 1 then n1 else n2
    }

    predicate Is32Bit() {
      id < DEFAULT_ID && n0 < WORD && n1 < WORD && n2 < WORD
    }
  }

  const NO_SIDE: Side := Side(DEFAULT_ID, 0)

  function Min(a: nat, b: nat): nat { if a < b then a else b }

  function Max(a: nat, b: nat): nat { if a < b then b else a }

  /** Smaller node id in the upper half of the word, larger one in the lower half. */
  function Key(a: nat, b: nat): nat {
    Min(a, b) * WORD + Max(a, b)
  }

  /** Keys tell edges apart, whatever the direction. */
  lemma KeyInjectiveIff(a: nat, b: nat, c: nat, d: nat)
    requires a < WORD && b < WORD && c < WORD && d < WORD
    ensures Key(a, b) == Key(c, d) <==> (a == c && b == d) || (a == d && b == c)
  {
  }

  /** The nodes of the edge opposite vertex k. */
  function FaceNodes(t: Triangle, k: nat): (nat, nat)
    requires k < 3
  {
    (t.Node((k + 1) % 3), t.Node((k + 2) % 3))
  }

  function FaceKey(t: Triangle, k: nat): nat
    requires k < 3
  {
    Key(FaceNodes(t, k).0, FaceNodes(t, k).1)
  }

  /** Face number j of the whole list: three faces a triangle. */
  function FaceUse(tris: seq<Triangle>, j: nat): Side
    requires j < 3 * |tris|
  {
    Side(tris[j / 3].id, j % 3)
  }

  function KeyAt(tris: seq<Triangle>, j: nat): nat
    requires j < 3 * |tris|
  {
    FaceKey(tris[j / 3], j % 3)
  }

  /** The faces among the first n that lie on an edge, in visiting order. */
  function Users(tris: seq<Triangle>, key: nat, n: nat): seq<Side>
    requires n <= 3 * |tris|
  {
    if n == 0 then [] else
      Users(tris, key, n - 1) + (if KeyAt(tris, n - 1) == key then [FaceUse(tris, n - 1)] else [])
  }

  datatype Entry = Entry(first: Side, second: Side)

  type Dictionary = map<nat, Entry>

  /** What an edge's entry must be: its first user, and its last one if there are several. */
  predicate EntryMatches(users: seq<Side>, key: nat, dict: Dictionary) {
    if |users| == 0 then key !in dict
    else key in dict && dict[key].first == users[0]
         && dict[key].second == if |users| == 1 then NO_SIDE else users[|users| - 1]
  }

  ghost predicate Matches(tris: seq<Triangle>, n: nat, dict: Dictionary)
    requires n <= 3 * |tris|
  {
    forall key :: EntryMatches(Users(tris, key, n), key, dict)
  }

  lemma MatchesStep(tris: seq<Triangle>, n: nat, dict: Dictionary, dict': Dictionary)
    requires n < 3 * |tris| && Matches(tris, n, dict)
    requires var key, use := KeyAt(tris, n), FaceUse(tris, n);
             dict' == dict[key := if key in dict then dict[key].(second := use) else Entry(use, NO_SIDE)]
    ensures Matches(tris, n + 1, dict')
  {
    var m := n + 1;
    forall key
      ensures EntryMatches(Users(tris, key, m), key, dict')
    {
      assert EntryMatches(Users(tris, key, n), key, dict);
    }
  }

  /** Visits every face of every triangle and enters it under its edge. */
  method BuildDictionary(tris: seq<Triangle>) returns (dict: Dictionary)
    ensures Matches(tris, 3 * |tris|, dict)
  {
    dict := map[];
    for i := 0 to |tris|
      invariant Matches(tris, 3 * i, dict)
    {
      for k := 0 to 3
        invariant Matches(tris, 3 * i + k, dict)
      {
        var key := FaceKey(tris[i], k);
        ghost var before := dict;
        assert KeyAt(tris, 3 * i + k) == key && FaceUse(tris, 3 * i + k) == Side(tris[i].id, k);
        if key in dict {
          dict := dict[key := dict[key].(second := Side(tris[i].id, k))];
        } else {
          dict := dict[key := Entry(Side(tris[i].id, k), NO_SIDE)];
        }
        MatchesStep(tris, 3 * i + k, before, dict);
      }
    }
  }

  // ----- neighbours and boundary types -----

  /** The element tables the constructor fills: neighbour id and boundary type of every face. */
  datatype Tables = Tables(neighbor: map<Side, nat>, btype: map<Side, nat>)

  /** What a fresh element has in every slot. */
  const UNSET: nat := 0

  function Lookup(m: map<Side, nat>, u: Side): nat {
    if u in m then m[u] else UNSET
  }

  /**
   The mesh file: its elements, the type of a boundary edge by its key, and the node pair across a barrier edge.
   Keys that are missing are those for which get_ibtype and get_internal_node_pair throw.
   */
  datatype MeshFile = MeshFile(elements: map<nat, Triangle>, ibtype: map<nat, nat>, across: map<(nat, nat), (nat, nat)>)

  /** Neighbour and type of a face that no other element shares. */
  datatype Rim = Unknown | Rim(neighbor: nat, btype: nat)

  /** A boundary face has no neighbour; a barrier face gets the element that lies across the barrier. */
  function RimOf(file: MeshFile, dict: Dictionary, key: nat, u: Side): Rim {
    if key !in file.ibtype || u.elt !in file.elements || u.face >= 3 then Unknown
    else if !IsInternal(file.ibtype[key]) then Rim(DEFAULT_ID, file.ibtype[key])
    else
      var nodes := FaceNodes(file.elements[u.elt], u.face);
      if nodes !in file.across then Unknown
      else
        var far := Key(file.across[nodes].0, file.across[nodes].1);
        if far !in dict then Unknown else Rim(dict[far].first.elt, file.ibtype[key])
  }

  function RimAt(file: MeshFile, dict: Dictionary, key: nat): Rim {
    if key in dict then RimOf(file, dict, key, dict[key].first) else Unknown
  }

  /** What one dictionary entry writes. */
  function WithEntry(t: Tables, e: Entry, rim: Rim): Tables {
    if e.second.elt != DEFAULT_ID then
      Tables(t.neighbor[e.first := e.second.elt][e.second := e.first.elt],
             t.btype[e.first := INTERNAL][e.second := INTERNAL])
    else if rim.Rim? then
      Tables(t.neighbor[e.first := rim.neighbor], t.btype[e.first := rim.btype])
    else t
  }

  /** No type for a boundary edge, no edge across a barrier, or no element there. */
  datatype Outcome = Done(tables: Tables) | UnknownBoundary(key: nat)

  /** The faces an entry speaks of. */
  function Mentioned(e: Entry): set<Side> {
    if e.second.elt != DEFAULT_ID then {e.first, e.second} else {e.first}
  }

  /** The tables agree with an entry. */
  predicate Agrees(t: Tables, e: Entry, rim: Rim) {
    if e.second.elt != DEFAULT_ID then
      && Lookup(t.neighbor, e.first) == e.second.elt && Lookup(t.btype, e.first) == INTERNAL
      && Lookup(t.neighbor, e.second) == e.first.elt && Lookup(t.btype, e.second) == INTERNAL
    else
      rim.Rim? && Lookup(t.neighbor, e.first) == rim.neighbor && Lookup(t.btype, e.first) == rim.btype
  }

  /** No face is mentioned by two entries. */
  ghost predicate EntriesApart(dict: Dictionary) {
    forall k, l | k in dict && l in dict && k != l :: Mentioned(dict[k]) !! Mentioned(dict[l])
  }

  /** An edge with one user needs a boundary type, and a barrier edge an element across. */
  predicate Settled(dict: Dictionary, file: MeshFile, key: nat)
    requires key in dict
  {
    dict[key].second.elt == DEFAULT_ID ==> RimAt(file, dict, key).Rim?
  }

  /** The faces mentioned by the first n entries. */
  ghost function Touched(dict: Dictionary, order: seq<nat>, n: nat): set<Side>
    requires n <= |order| && forall k | k in order :: k in dict
  {
    if n == 0 then {} else Touched(dict, order, n - 1) + Mentioned(dict[order[n - 1]])
  }

  ghost predicate EntryWritten(t: Tables, dict: Dictionary, file: MeshFile, key: nat) {
    key in dict && Settled(dict, file, key) && Agrees(t, dict[key], RimAt(file, dict, key))
  }

  /** The tables when the first n entries of the dictionary were written. */
  ghost predicate Written(t: Tables, dict: Dictionary, order: seq<nat>, n: nat, file: MeshFile)
    requires n <= |order| && forall k | k in order :: k in dict
  {
    && (forall j | 0 <= j < n :: EntryWritten(t, dict, file, order[j]))
    && (forall u | u !in Touched(dict, order, n) :: u !in t.neighbor && u !in t.btype)
  }

  lemma AgreesStays(t: Tables, e: Entry, rim: Rim, f: Entry, rim': Rim)
    requires Agrees(t, f, rim') && Mentioned(e) !! Mentioned(f)
    ensures Agrees(WithEntry(t, e, rim), f, rim')
  {
    assert f.first in Mentioned(f);
    assert f.second.elt != DEFAULT_ID ==> f.second in Mentioned(f);
  }

  lemma OthersUntouched(t: Tables, e: Entry, rim: Rim, touched: set<Side>)
    requires forall u | u !in touched :: u !in t.neighbor && u !in t.btype
    ensures forall u | u !in touched + Mentioned(e) ::
              u !in WithEntry(t, e, rim).neighbor && u !in WithEntry(t, e, rim).btype
  {
  }

  lemma EntryStays(t: Tables, dict: Dictionary, file: MeshFile, key: nat, other: nat)
    requires EntriesApart(dict) && key in dict && key != other && EntryWritten(t, dict, file, other)
    ensures EntryWritten(WithEntry(t, dict[key], RimAt(file, dict, key)), dict, file, other)
  {
    AgreesStays(t, dict[key], RimAt(file, dict, key), dict[other], RimAt(file, dict, other));
  }

  lemma WrittenStep(t: Tables, dict: Dictionary, order: seq<nat>, n: nat, file: MeshFile)
    requires n < |order| && (forall k | k in order :: k in dict) && EntriesApart(dict)
    requires forall i, j | 0 <= i < j < |order| :: order[i] != order[j]
    requires Written(t, dict, order, n, file) && Settled(dict, file, order[n])
    ensures Written(WithEntry(t, dict[order[n]], RimAt(file, dict, order[n])), dict, order, n + 1, file)
  {
    var key := order[n];
    var t' := WithEntry(t, dict[key], RimAt(file, dict, key));
    forall j | 0 <= j < n + 1
      ensures EntryWritten(t', dict, file, order[j])
    {
      if j < n {
        EntryStays(t, dict, file, key, order[j]);
      }
    }
    OthersUntouched(t, dict[key], RimAt(file, dict, key), Touched(dict, order, n));
  }

  /**
   Goes through the dictionary in any order.  An edge with one user must have a boundary type, and a barrier edge an
   element across, or the constructor throws.
   */
  method AssignNeighbors(dict: Dictionary, order: seq<nat>, file: MeshFile) returns (r: Outcome)
    requires forall k :: k in dict <==> k in order
    requires forall i, j | 0 <= i < j < |order| :: order[i] != order[j]
    requires EntriesApart(dict)
    ensures r.Done? <==> forall k | k in dict :: Settled(dict, file, k)
    ensures r.UnknownBoundary? ==> r.key in dict && !Settled(dict, file, r.key)
    ensures r.Done? ==> Written(r.tables, dict, order, |order|, file)
  {
    var t := Tables(map[], map[]);
    for i := 0 to |order|
      invariant Written(t, dict, order, i, file)
    {
      if !Settled(dict, file, order[i]) {
        return UnknownBoundary(order[i]);
      }
      WrittenStep(t, dict, order, i, file);
      t := WithEntry(t, dict[order[i]], RimAt(file, dict, order[i]));
    }
    AllSettled(t, dict, order, file);
    r := Done(t);
  }

  lemma AllSettled(t: Tables, dict: Dictionary, order: seq<nat>, file: MeshFile)
    requires (forall k :: k in dict <==> k in order) && Written(t, dict, order, |order|, file)
    ensures forall k | k in dict :: Settled(dict, file, k)
  {
    forall k | k in dict
      ensures Settled(dict, file, k)
    {
      var i :| 0 <= i < |order| && order[i] == k;
      assert EntryWritten(t, dict, file, order[i]);
    }
  }

  method Enumerate(keys: set<nat>) returns (order: seq<nat>)
    ensures forall k :: k in keys <==> k in order
    ensures forall i, j | 0 <= i < j < |order| :: order[i] != order[j]
  {
    order := [];
    var rest := keys;
    while rest != {}
      invariant forall k :: k in keys <==> k in order || k in rest
      invariant forall k | k in order :: k !in rest
      invariant forall i, j | 0 <= i < j < |order| :: order[i] != order[j]
      decreases rest
    {
      var k :| k in rest;
      order := order + [k];
      rest := rest - {k};
    }
  }

  /** The topology part of the MeshMetaData constructor. */
  method Construct(tris: seq<Triangle>, file: MeshFile) returns (r: Outcome)
    requires ValidInput(tris) && Holds(file, tris)
    ensures r.Done? <==> forall j | 0 <= j < 3 * |tris| && |AllUsers(tris, j)| == 1 :: RimOfFace(tris, file, j).Rim?
    ensures r.Done? ==> Built(tris, file, r.tables)
  {
    var dict := BuildDictionary(tris);
    DictionaryApart(tris, dict);
    SettledExact(tris, dict, file);
    var order := Enumerate(dict.Keys);
    r := AssignNeighbors(dict, order, file);
  }

  // ----- what the tables mean -----

  /** Different triangles have different ids, and all numbers are 32-bit. */
  ghost predicate ValidInput(tris: seq<Triangle>) {
    && (forall i | 0 <= i < |tris| :: tris[i].Is32Bit())
    && (forall i, j | 0 <= i < j < |tris| :: tris[i].id != tris[j].id)
  }

  /** The triangles are the file's elements, in the order they are visited. */
  ghost predicate Holds(file: MeshFile, tris: seq<Triangle>) {
    forall i | 0 <= i < |tris| :: tris[i].id in file.elements && file.elements[tris[i].id] == tris[i]
  }

  /** What face j gets if it is alone on its edge: across a barrier lies the first element that has the far edge. */
  function RimOfFace(tris: seq<Triangle>, file: MeshFile, j: nat): Rim
    requires j < 3 * |tris|
  {
    var key, nodes := KeyAt(tris, j), FaceNodes(tris[j / 3], j % 3);
    if key !in file.ibtype then Unknown
    else if !IsInternal(file.ibtype[key]) then Rim(DEFAULT_ID, file.ibtype[key])
    else if nodes !in file.across then Unknown
    else
      var far := Users(tris, Key(file.across[nodes].0, file.across[nodes].1), 3 * |tris|);
      if far == [] then Unknown else Rim(far[0].elt, file.ibtype[key])
  }

  lemma RimMatches(tris: seq<Triangle>, file: MeshFile, dict: Dictionary, j: nat)
    requires ValidInput(tris) && Holds(file, tris) && Matches(tris, 3 * |tris|, dict) && j < 3 * |tris|
    ensures RimOf(file, dict, KeyAt(tris, j), FaceUse(tris, j)) == RimOfFace(tris, file, j)
  {
    var nodes := FaceNodes(tris[j / 3], j % 3);
    if nodes in file.across {
      var far := Key(file.across[nodes].0, file.across[nodes].1);
      assert EntryMatches(Users(tris, far, 3 * |tris|), far, dict);
    }
  }

  /** The entry of an edge with one user speaks of that face. */
  lemma OnlyUser(tris: seq<Triangle>, file: MeshFile, dict: Dictionary, j: nat)
    requires ValidInput(tris) && Holds(file, tris) && Matches(tris, 3 * |tris|, dict)
    requires j < 3 * |tris| && |AllUsers(tris, j)| == 1
    ensures RimAt(file, dict, KeyAt(tris, j)) == RimOfFace(tris, file, j)
  {
    FaceIsUser(tris, j);
    assert EntryMatches(AllUsers(tris, j), KeyAt(tris, j), dict);
    RimMatches(tris, file, dict, j);
  }

  /** Different places in the face list are different faces. */
  lemma FaceUsesDiffer(tris: seq<Triangle>, i: nat, j: nat)
    requires ValidInput(tris) && i < j < 3 * |tris|
    ensures FaceUse(tris, i) != FaceUse(tris, j)
  {
    assert i / 3 == j / 3 || tris[i / 3].id != tris[j / 3].id;
  }

  /** The users of a key are the faces on that edge, and nothing else. */
  lemma {:induction false} UsersComplete(tris: seq<Triangle>, key: nat, n: nat, u: Side)
    requires n <= 3 * |tris|
    ensures u in Users(tris, key, n) <==> exists j :: 0 <= j < n && KeyAt(tris, j) == key && FaceUse(tris, j) == u
  {
    if n > 0 {
      UsersComplete(tris, key, n - 1, u);
      if j :| 0 <= j < n && KeyAt(tris, j) == key && FaceUse(tris, j) == u {
        assert j < n - 1 || j == n - 1;
      }
    }
  }

  lemma {:induction false} UsersDistinct(tris: seq<Triangle>, key: nat, n: nat, a: nat, b: nat)
    requires ValidInput(tris) && n <= 3 * |tris| && a < b < |Users(tris, key, n)|
    ensures Users(tris, key, n)[a] != Users(tris, key, n)[b]
  {
    var before := Users(tris, key, n - 1);
    if b < |before| {
      UsersDistinct(tris, key, n - 1, a, b);
    } else {
      assert before[a] in before;
      var j := UserIsFace(tris, key, n - 1, before[a]);
      FaceUsesDiffer(tris, j, n - 1);
    }
  }

  /** A face lies on one edge only, so no face is mentioned under two keys. */
  lemma DictionaryApart(tris: seq<Triangle>, dict: Dictionary)
    requires ValidInput(tris) && Matches(tris, 3 * |tris|, dict)
    ensures EntriesApart(dict)
  {
    var n := 3 * |tris|;
    forall k, l, u | k in dict && l in dict && u in Mentioned(dict[k]) && u in Mentioned(dict[l])
      ensures k == l
    {
      assert EntryMatches(Users(tris, k, n), k, dict) && EntryMatches(Users(tris, l, n), l, dict);
      assert u in Users(tris, k, n) && u in Users(tris, l, n);
      var i := UserIsFace(tris, k, n, u);
      var j := UserIsFace(tris, l, n, u);
      if i < j {
        FaceUsesDiffer(tris, i, j);
      } else if j < i {
        FaceUsesDiffer(tris, j, i);
      }
    }
  }

  /** The constructor ran on these triangles and ended with these tables. */
  ghost predicate Built(tris: seq<Triangle>, file: MeshFile, t: Tables) {
    && ValidInput(tris) && Holds(file, tris)
    && exists dict, order ::
         && Matches(tris, 3 * |tris|, dict)
         && (forall k :: k in dict <==> k in order)
         && Written(t, dict, order, |order|, file)
  }

  function AllUsers(tris: seq<Triangle>, j: nat): seq<Side>
    requires j < 3 * |tris|
  {
    Users(tris, KeyAt(tris, j), 3 * |tris|)
  }

  lemma FaceIsUser(tris: seq<Triangle>, j: nat)
    requires j < 3 * |tris|
    ensures FaceUse(tris, j) in AllUsers(tris, j)
  {
    UsersComplete(tris, KeyAt(tris, j), 3 * |tris|, FaceUse(tris, j));
  }

  /** A user of an edge is a face on it. */
  lemma UserIsFace(tris: seq<Triangle>, key: nat, n: nat, u: Side) returns (j: nat)
    requires n <= 3 * |tris| && u in Users(tris, key, n)
    ensures j < n && KeyAt(tris, j) == key && FaceUse(tris, j) == u
  {
    UsersComplete(tris, key, n, u);
    j :| 0 <= j < n && KeyAt(tris, j) == key && FaceUse(tris, j) == u;
  }

  /** The dictionary entry a face's table values come from. */
  lemma EntryOf(tris: seq<Triangle>, file: MeshFile, t: Tables, j: nat) returns (e: Entry, rim: Rim)
    requires Built(tris, file, t) && j < 3 * |tris|
    ensures var users := AllUsers(tris, j);
            && FaceUse(tris, j) in users
            && e.first == users[0]
            && e.second == (if |users| == 1 then NO_SIDE else users[|users| - 1])
            && (e.second.elt != DEFAULT_ID <==> |users| > 1)
            && (|users| == 1 ==> rim == RimOfFace(tris, file, j))
    ensures Agrees(t, e, rim)
    ensures FaceUse(tris, j) !in Mentioned(e) ==> FaceUse(tris, j) !in t.neighbor && FaceUse(tris, j) !in t.btype
  {
    var dict, order :| Matches(tris, 3 * |tris|, dict) && (forall k :: k in dict <==> k in order)
                       && Written(t, dict, order, |order|, file);
    var key := KeyAt(tris, j);
    FaceIsUser(tris, j);
    assert EntryMatches(Users(tris, key, 3 * |tris|), key, dict);
    e, rim := dict[key], RimAt(file, dict, key);
    EntrySecond(tris, key, 3 * |tris|, dict);
    EntryAgrees(t, dict, order, file, key);
    if |AllUsers(tris, j)| == 1 {
      OnlyUser(tris, file, dict, j);
    }
    if FaceUse(tris, j) !in Mentioned(e) {
      NotTouched(tris, dict, order, |order|, j);
    }
  }

  lemma EntryAgrees(t: Tables, dict: Dictionary, order: seq<nat>, file: MeshFile, key: nat)
    requires (forall k :: k in dict <==> k in order) && Written(t, dict, order, |order|, file) && key in dict
    ensures Agrees(t, dict[key], RimAt(file, dict, key))
  {
    var i :| 0 <= i < |order| && order[i] == key;
    assert EntryWritten(t, dict, file, order[i]);
  }

  /**
   The fate of every face, for every list of triangles.  The only user of an edge is a boundary or a barrier face.  The
   first and the last of several users become each other's neighbours.  A user in between keeps the unset values.
   */
  lemma FaceFate(tris: seq<Triangle>, file: MeshFile, t: Tables, j: nat)
    requires Built(tris, file, t) && j < 3 * |tris|
    ensures FaceUse(tris, j) in AllUsers(tris, j)
    ensures HasFate(t, AllUsers(tris, j), FaceUse(tris, j), RimOfFace(tris, file, j))
  {
    var e, rim := EntryOf(tris, file, t, j);
    EntryGivesFate(t, e, rim, AllUsers(tris, j), FaceUse(tris, j));
  }

  ghost predicate HasFate(t: Tables, users: seq<Side>, u: Side, rim: Rim)
    requires u in users
  {
    var last := |users| - 1;
    && (last == 0 ==> rim == Rim(Lookup(t.neighbor, u), Lookup(t.btype, u)))
    && (last > 0 && u == users[0] ==> Lookup(t.neighbor, u) == users[last].elt && Lookup(t.btype, u) == INTERNAL)
    && (last > 0 && u == users[last] ==> Lookup(t.neighbor, u) == users[0].elt && Lookup(t.btype, u) == INTERNAL)
    && (u != users[0] && u != users[last] ==> Lookup(t.neighbor, u) == UNSET && Lookup(t.btype, u) == UNSET)
  }

  lemma EntryGivesFate(t: Tables, e: Entry, rim: Rim, users: seq<Side>, u: Side)
    requires u in users && e.first == users[0] && e.second == (if |users| == 1 then NO_SIDE else users[|users| - 1])
    requires (e.second.elt != DEFAULT_ID <==> |users| > 1) && Agrees(t, e, rim)
    requires u !in Mentioned(e) ==> u !in t.neighbor && u !in t.btype
    ensures HasFate(t, users, u, rim)
  {
  }

  /** The second user of an entry is real exactly when there are several users. */
  lemma EntrySecond(tris: seq<Triangle>, key: nat, n: nat, dict: Dictionary)
    requires ValidInput(tris) && n <= 3 * |tris| && key in dict && EntryMatches(Users(tris, key, n), key, dict)
    ensures dict[key].second.elt != DEFAULT_ID <==> |Users(tris, key, n)| > 1
  {
    var users := Users(tris, key, n);
    var u := users[|users| - 1];
    UsersComplete(tris, key, n, u);
    var j :| 0 <= j < n && KeyAt(tris, j) == key && FaceUse(tris, j) == u;
    assert tris[j / 3].Is32Bit();
  }

  /** The entries are settled exactly when every face alone on its edge is. */
  lemma SettledExact(tris: seq<Triangle>, dict: Dictionary, file: MeshFile)
    requires ValidInput(tris) && Holds(file, tris) && Matches(tris, 3 * |tris|, dict)
    ensures (forall k | k in dict :: Settled(dict, file, k))
       <==> forall j | 0 <= j < 3 * |tris| && |AllUsers(tris, j)| == 1 :: RimOfFace(tris, file, j).Rim?
  {
    forall j | 0 <= j < 3 * |tris|
      ensures KeyAt(tris, j) in dict
      ensures Settled(dict, file, KeyAt(tris, j)) <==> |AllUsers(tris, j)| != 1 || RimOfFace(tris, file, j).Rim?
    {
      FaceIsUser(tris, j);
      assert EntryMatches(AllUsers(tris, j), KeyAt(tris, j), dict);
      EntrySecond(tris, KeyAt(tris, j), 3 * |tris|, dict);
      if |AllUsers(tris, j)| == 1 {
        OnlyUser(tris, file, dict, j);
      }
    }
    forall k | k in dict
      ensures exists j :: 0 <= j < 3 * |tris| && KeyAt(tris, j) == k
    {
      var n := 3 * |tris|;
      assert EntryMatches(Users(tris, k, n), k, dict);
      var j := UserIsFace(tris, k, n, Users(tris, k, n)[0]);
    }
  }

  lemma {:induction false} NotTouched(tris: seq<Triangle>, dict: Dictionary, order: seq<nat>, n: nat, j: nat)
    requires ValidInput(tris) && Matches(tris, 3 * |tris|, dict) && j < 3 * |tris| && n <= |order|
    requires forall k :: k in dict <==> k in order
    requires KeyAt(tris, j) in dict && FaceUse(tris, j) !in Mentioned(dict[KeyAt(tris, j)])
    ensures FaceUse(tris, j) !in Touched(dict, order, n)
  {
    if n > 0 {
      NotTouched(tris, dict, order, n - 1, j);
      var key, u := order[n - 1], FaceUse(tris, j);
      if u in Mentioned(dict[key]) {
        assert EntryMatches(Users(tris, key, 3 * |tris|), key, dict);
        assert u in Users(tris, key, 3 * |tris|);
        UsersComplete(tris, key, 3 * |tris|, u);
        var i :| 0 <= i < 3 * |tris| && KeyAt(tris, i) == key && FaceUse(tris, i) == u;
        if i < j {
          FaceUsesDiffer(tris, i, j);
        } else if j < i {
          FaceUsesDiffer(tris, j, i);
        }
      }
    }
  }

  // ----- manifold meshes -----

  /** At most two triangles meet at any edge. */
  ghost predicate Manifold(tris: seq<Triangle>) {
    forall j | 0 <= j < 3 * |tris| :: |AllUsers(tris, j)| <= 2
  }

  /** Another face lies on the same edge. */
  ghost predicate Shared(tris: seq<Triangle>, i: nat, j: nat) {
    i < 3 * |tris| && j < 3 * |tris| && i != j && KeyAt(tris, i) == KeyAt(tris, j)
  }

  lemma TwoMembers(users: seq<Side>, a: Side, b: Side)
    requires a in users && b in users && a != b && |users| <= 2
    ensures users == [a, b] || users == [b, a]
  {
    var i :| 0 <= i < |users| && users[i] == a;
    var j :| 0 <= j < |users| && users[j] == b;
    assert |users| == 2;
  }

  /** On a manifold mesh, the users of an edge with two faces are just these two. */
  lemma TwoUsers(tris: seq<Triangle>, i: nat, j: nat)
    requires ValidInput(tris) && Manifold(tris) && Shared(tris, i, j)
    ensures AllUsers(tris, i) == [FaceUse(tris, i), FaceUse(tris, j)]
         || AllUsers(tris, i) == [FaceUse(tris, j), FaceUse(tris, i)]
  {
    FaceIsUser(tris, i);
    FaceIsUser(tris, j);
    if i < j {
      FaceUsesDiffer(tris, i, j);
    } else {
      FaceUsesDiffer(tris, j, i);
    }
    TwoMembers(AllUsers(tris, i), FaceUse(tris, i), FaceUse(tris, j));
  }

  /** On a manifold mesh, two faces on one edge are internal and name each other's elements. */
  lemma ManifoldNeighbors(tris: seq<Triangle>, file: MeshFile, t: Tables, i: nat, j: nat)
    requires Built(tris, file, t) && Manifold(tris) && Shared(tris, i, j)
    ensures Lookup(t.btype, FaceUse(tris, i)) == INTERNAL
    ensures Lookup(t.neighbor, FaceUse(tris, i)) == FaceUse(tris, j).elt
  {
    TwoUsers(tris, i, j);
    FaceFate(tris, file, t, i);
  }

  /** A face alone on its edge is a boundary face without neighbour, or faces the element across a barrier. */
  lemma LonelyFaceIsRim(tris: seq<Triangle>, file: MeshFile, t: Tables, i: nat)
    requires Built(tris, file, t) && i < 3 * |tris|
    requires forall j :: !Shared(tris, i, j)
    ensures RimOfFace(tris, file, i) == Rim(Lookup(t.neighbor, FaceUse(tris, i)), Lookup(t.btype, FaceUse(tris, i)))
  {
    OneUser(tris, i);
    FaceFate(tris, file, t, i);
  }

  lemma OneUser(tris: seq<Triangle>, i: nat)
    requires ValidInput(tris) && i < 3 * |tris| && forall j :: !Shared(tris, i, j)
    ensures AllUsers(tris, i) == [FaceUse(tris, i)]
  {
    var n, key := 3 * |tris|, KeyAt(tris, i);
    var users := Users(tris, key, n);
    UsersComplete(tris, key, n, FaceUse(tris, i));
    if |users| > 1 {
      UsersDistinct(tris, key, n, 0, 1);
      var v := if users[0] == FaceUse(tris, i) then users[1] else users[0];
      UsersComplete(tris, key, n, v);
      var j :| 0 <= j < n && KeyAt(tris, j) == key && FaceUse(tris, j) == v;
      assert Shared(tris, i, j);
    }
  }

  /** A face strictly between the first and the last user of its edge loses its neighbours. */
  lemma ThirdUserIsLost(tris: seq<Triangle>, file: MeshFile, t: Tables, j: nat, a: nat)
    requires Built(tris, file, t) && j < 3 * |tris|
    requires 0 < a < |AllUsers(tris, j)| - 1 && FaceUse(tris, j) == AllUsers(tris, j)[a]
    ensures Lookup(t.neighbor, FaceUse(tris, j)) == UNSET && Lookup(t.btype, FaceUse(tris, j)) != INTERNAL
    ensures exists i :: Shared(tris, j, i)
  {
    MiddleDiffers(tris, j, a);
    MiddleIsUnset(tris, file, t, j);
    FirstUserShares(tris, j);
  }

  lemma MiddleDiffers(tris: seq<Triangle>, j: nat, a: nat)
    requires ValidInput(tris) && j < 3 * |tris| && 0 < a < |AllUsers(tris, j)| - 1
    ensures var users := AllUsers(tris, j); users[a] != users[0] && users[a] != users[|users| - 1]
  {
    UsersDistinct(tris, KeyAt(tris, j), 3 * |tris|, 0, a);
    UsersDistinct(tris, KeyAt(tris, j), 3 * |tris|, a, |AllUsers(tris, j)| - 1);
  }

  lemma MiddleIsUnset(tris: seq<Triangle>, file: MeshFile, t: Tables, j: nat)
    requires Built(tris, file, t) && j < 3 * |tris| && |AllUsers(tris, j)| > 0
    requires var users := AllUsers(tris, j); FaceUse(tris, j) != users[0] && FaceUse(tris, j) != users[|users| - 1]
    ensures Lookup(t.neighbor, FaceUse(tris, j)) == Lookup(t.btype, FaceUse(tris, j)) == UNSET
  {
    FaceFate(tris, file, t, j);
  }

  lemma FirstUserShares(tris: seq<Triangle>, j: nat)
    requires j < 3 * |tris| && |AllUsers(tris, j)| > 0 && FaceUse(tris, j) != AllUsers(tris, j)[0]
    ensures exists i :: Shared(tris, j, i)
  {
    var i := UserIsFace(tris, KeyAt(tris, j), 3 * |tris|, AllUsers(tris, j)[0]);
    assert Shared(tris, j, i);
  }

  /** Faces i and j are internal and name each other's elements. */
  predicate Paired(tris: seq<Triangle>, t: Tables, i: nat, j: nat)
    requires i < 3 * |tris| && j < 3 * |tris|
  {
    var u, v := FaceUse(tris, i), FaceUse(tris, j);
    && Lookup(t.btype, u) == INTERNAL && Lookup(t.neighbor, u) == v.elt
    && Lookup(t.btype, v) == INTERNAL && Lookup(t.neighbor, v) == u.elt
  }

  /** The constructor pairs all faces that share an edge exactly when the mesh is manifold. */
  lemma PairsAllIffManifold(tris: seq<Triangle>, file: MeshFile, t: Tables)
    requires Built(tris, file, t)
    ensures Manifold(tris) <==> forall i, j | Shared(tris, i, j) :: Paired(tris, t, i, j)
  {
    if Manifold(tris) {
      forall i, j | Shared(tris, i, j)
        ensures Paired(tris, t, i, j)
      {
        assert Shared(tris, j, i);
        ManifoldNeighbors(tris, file, t, i, j);
        ManifoldNeighbors(tris, file, t, j, i);
      }
    } else {
      var j :| 0 <= j < 3 * |tris| && |AllUsers(tris, j)| > 2;
      var m := UserIsFace(tris, KeyAt(tris, j), 3 * |tris|, AllUsers(tris, j)[1]);
      ThirdUserIsLost(tris, file, t, m, 1);
      var i :| Shared(tris, m, i);
      assert !Paired(tris, t, m, i);
    }
  }

  /** Three triangles on the edge from node 0 to node 1. */
  const FAN: seq<Triangle> := [Triangle(1, 0, 1, 2), Triangle(2, 0, 1, 3), Triangle(3, 0, 1, 4)]

  /** Its mesh file: all edges but the shared one are on an open boundary. */
  const FAN_FILE: MeshFile :=
    MeshFile(map[1 := FAN[0], 2 := FAN[1], 3 := FAN[2]],
             map[Key(1, 2) := 0, Key(2, 0) := 0, Key(1, 3) := 0, Key(3, 0) := 0, Key(1, 4) := 0, Key(4, 0) := 0],
             map[])

  lemma FanUsers()
    ensures AllUsers(FAN, 5) == [Side(1, 2), Side(2, 2), Side(3, 2)]
  {
    var key := KeyAt(FAN, 5);
    assert Users(FAN, key, 1) == [] && Users(FAN, key, 2) == [];
    assert Users(FAN, key, 3) == [Side(1, 2)];
    assert Users(FAN, key, 4) == [Side(1, 2)] && Users(FAN, key, 5) == [Side(1, 2)];
    assert Users(FAN, key, 6) == [Side(1, 2), Side(2, 2)];
    assert Users(FAN, key, 7) == [Side(1, 2), Side(2, 2)] && Users(FAN, key, 8) == [Side(1, 2), Side(2, 2)];
  }

  /** The first and the last triangle become neighbours; the one in between loses its own. */
  lemma FanLosesMiddle(file: MeshFile, t: Tables)
    requires Built(FAN, file, t)
    ensures Lookup(t.neighbor, Side(1, 2)) == 3 && Lookup(t.neighbor, Side(3, 2)) == 1
    ensures Lookup(t.neighbor, Side(2, 2)) == UNSET && Lookup(t.btype, Side(2, 2)) == UNSET
  {
    FanUsers();
    assert AllUsers(FAN, 2) == AllUsers(FAN, 5) == AllUsers(FAN, 8);
    FaceFate(FAN, file, t, 2);
    FaceFate(FAN, file, t, 5);
    FaceFate(FAN, file, t, 8);
  }

  /** The constructor accepts the fan: its input is valid, and every face alone on its edge has a type. */
  lemma FanIsAccepted()
    ensures ValidInput(FAN) && Holds(FAN_FILE, FAN)
    ensures forall j | 0 <= j < 3 * |FAN| && |AllUsers(FAN, j)| == 1 :: RimOfFace(FAN, FAN_FILE, j).Rim?
  {
    FanUsers();
    forall j | 0 <= j < 3 * |FAN| && |AllUsers(FAN, j)| == 1
      ensures RimOfFace(FAN, FAN_FILE, j).Rim?
    {
      assert KeyAt(FAN, 2) == KeyAt(FAN, 5) == KeyAt(FAN, 8);
      assert j != 2 && j != 5 && j != 8;
      FanRim(j);
    }
  }

  lemma FanRim(j: nat)
    requires j < 9 && j % 3 != 2
    ensures RimOfFace(FAN, FAN_FILE, j) == Rim(DEFAULT_ID, 0)
  {
    var n := if j < 3 then 2 else if j < 6 then 3 else 4;
    assert KeyAt(FAN, j) == if j % 3 == 0 then Key(1, n) else Key(n, 0);
  }

  // ----- counting -----

  /** The edges with one user, and those with two, among the first n faces. */
  ghost function Single(tris: seq<Triangle>, n: nat): set<nat>
    requires n <= 3 * |tris|
  {
    set j | 0 <= j < n && |Users(tris, KeyAt(tris, j), n)| == 1 :: KeyAt(tris, j)
  }

  ghost function Double(tris: seq<Triangle>, n: nat): set<nat>
    requires n <= 3 * |tris|
  {
    set j | 0 <= j < n && |Users(tris, KeyAt(tris, j), n)| == 2 :: KeyAt(tris, j)
  }

  lemma {:induction false} UsersMonotone(tris: seq<Triangle>, key: nat, n: nat, n': nat)
    requires n <= n' <= 3 * |tris|
    ensures |Users(tris, key, n)| <= |Users(tris, key, n')|
    decreases n'
  {
    if n < n' {
      UsersMonotone(tris, key, n, n' - 1);
    }
  }

  lemma {:induction false} NoUsers(tris: seq<Triangle>, key: nat, n: nat)
    requires n <= 3 * |tris|
    ensures |Users(tris, key, n)| > 0 <==> exists j :: 0 <= j < n && KeyAt(tris, j) == key
  {
    if n > 0 {
      NoUsers(tris, key, n - 1);
      if j :| 0 <= j < n && KeyAt(tris, j) == key {
        assert j < n - 1 || j == n - 1;
      }
    }
  }

  /** How the sets change with one more face, by the users its edge had before. */
  ghost predicate CountsStep(tris: seq<Triangle>, n: nat)
    requires n < 3 * |tris|
  {
    var key, m := KeyAt(tris, n), n + 1;
    if |Users(tris, key, n)| == 0 then
      key !in Single(tris, n) && Single(tris, m) == Single(tris, n) + {key} && Double(tris, m) == Double(tris, n)
    else
      && key in Single(tris, n) && Single(tris, m) == Single(tris, n) - {key}
      && key !in Double(tris, n) && Double(tris, m) == Double(tris, n) + {key}
  }

  lemma UsersStep(tris: seq<Triangle>, n: nat, key: nat)
    requires n < 3 * |tris|
    ensures |Users(tris, key, n + 1)| == |Users(tris, key, n)| + if KeyAt(tris, n) == key then 1 else 0
  {
  }

  lemma SingleMember(tris: seq<Triangle>, n: nat, key: nat)
    requires n <= 3 * |tris|
    ensures key in Single(tris, n) <==> |Users(tris, key, n)| == 1
    ensures key in Double(tris, n) <==> |Users(tris, key, n)| == 2
  {
    NoUsers(tris, key, n);
  }

  lemma SingleDoubleStep(tris: seq<Triangle>, n: nat)
    requires n < 3 * |tris| && |Users(tris, KeyAt(tris, n), n)| <= 1
    ensures CountsStep(tris, n)
  {
    SingleMember(tris, n, KeyAt(tris, n));
    SingleStep(tris, n);
    DoubleStep(tris, n);
  }

  lemma SingleStep(tris: seq<Triangle>, n: nat)
    requires n < 3 * |tris| && |Users(tris, KeyAt(tris, n), n)| <= 1
    ensures var m, key := n + 1, KeyAt(tris, n);
            Single(tris, m) == if |Users(tris, key, n)| == 0 then Single(tris, n) + {key} else Single(tris, n) - {key}
  {
    var m := n + 1;
    forall k
      ensures k in Single(tris, m) <==> if k == KeyAt(tris, n) then |Users(tris, k, n)| == 0 else k in Single(tris, n)
    {
      SingleMember(tris, n, k);
      SingleMember(tris, m, k);
      UsersStep(tris, n, k);
    }
  }

  lemma DoubleStep(tris: seq<Triangle>, n: nat)
    requires n < 3 * |tris| && |Users(tris, KeyAt(tris, n), n)| <= 1
    ensures var m, key := n + 1, KeyAt(tris, n);
            Double(tris, m) == if |Users(tris, key, n)| == 0 then Double(tris, n) else Double(tris, n) + {key}
  {
    var m := n + 1;
    SingleMember(tris, n, KeyAt(tris, n));
    forall k
      ensures k in Double(tris, m) <==> if k == KeyAt(tris, n) then |Users(tris, k, n)| == 1 else k in Double(tris, n)
    {
      SingleMember(tris, n, k);
      SingleMember(tris, m, k);
      UsersStep(tris, n, k);
    }
  }

  lemma AddedTogether(single: set<nat>, single': set<nat>, double: set<nat>, double': set<nat>, key: nat, isNew: bool)
    requires if isNew then key !in single && single' == single + {key} && double' == double
             else key in single && single' == single - {key} && key !in double && double' == double + {key}
    ensures 2 * |double'| + |single'| == 2 * |double| + |single| + 1
  {
    assert single == (single - {key}) + if key in single then {key} else {};
  }

  lemma {:induction false} CountStep(tris: seq<Triangle>, n: nat)
    requires n <= 3 * |tris| && Manifold(tris)
    ensures n == 2 * |Double(tris, n)| + |Single(tris, n)|
  {
    if n > 0 {
      var before := n - 1;
      CountStep(tris, before);
      var key := KeyAt(tris, before);
      assert |AllUsers(tris, before)| <= 2;
      UsersMonotone(tris, key, n, 3 * |tris|);
      UsersStep(tris, before, key);
      SingleDoubleStep(tris, before);
      AddedTogether(Single(tris, before), Single(tris, n), Double(tris, before), Double(tris, n), key,
                    |Users(tris, key, before)| == 0);
    }
  }

  /** Three faces a triangle: every interior edge is counted twice and every boundary edge once. */
  lemma EdgeCount(tris: seq<Triangle>)
    requires Manifold(tris)
    ensures 3 * |tris| == 2 * |Double(tris, 3 * |tris|)| + |Single(tris, 3 * |tris|)|
  {
    CountStep(tris, 3 * |tris|);
  }
}
