/**
 The distributed-boundary metadata: which faces are cut, how they are paired up and written per sim unit, and
 how both units read them back as mirror images.
 */
module DistributedInterfaces {
  import opened EdgeTypes
  import opened Sides
  import opened Partitioning

  // ----- the cut faces -----

  /** Pairs of elements joined by a face of internal type. */
  ghost predicate JoinedBy(neighbor: map<Side, nat>, btype: map<Side, nat>, p: (nat, nat)) {
    exists s :: s in neighbor && s in btype && IsInternal(btype[s]) && PairOf(neighbor, s) == p
  }

  /**
   Inserts the pair of every internal face of the mesh, then erases the pair of every face still internal in a submesh.
   */
  method CutPairs(elements: seq<nat>, neighbor: map<Side, nat>, btype: map<Side, nat>, marked: map<Side, nat>)
    returns (faces: set<(nat, nat)>)
    requires FullTable(elements, neighbor) && FullTable(elements, btype) && FullTable(elements, marked)
    ensures forall p :: p in faces <==> JoinedBy(neighbor, btype, p) && !JoinedBy(neighbor, marked, p)
  {
    faces := InternalPairs(elements, neighbor, btype);
    var kept := InternalPairs(elements, neighbor, marked);
    faces := faces - kept;
  }

  method InternalPairs(elements: seq<nat>, neighbor: map<Side, nat>, btype: map<Side, nat>)
    returns (pairs: set<(nat, nat)>)
    requires FullTable(elements, neighbor) && FullTable(elements, btype)
    ensures forall p :: p in pairs <==> JoinedBy(neighbor, btype, p)
  {
    pairs := {};
    for i := 0 to |elements|
      invariant forall p :: p in pairs ==> JoinedBy(neighbor, btype, p)
      invariant forall s | s in neighbor && s.elt in elements[..i] && IsInternal(btype[s]) ::
                  PairOf(neighbor, s) in pairs
    {
      for k := 0 to 3
        invariant forall p :: p in pairs ==> JoinedBy(neighbor, btype, p)
        invariant forall s | s in neighbor && s.elt in elements[..i] && IsInternal(btype[s]) ::
                    PairOf(neighbor, s) in pairs
        invariant forall s | s in neighbor && s.elt == elements[i] && s.face < k && IsInternal(btype[s]) ::
                    PairOf(neighbor, s) in pairs
      {
        var s := Side(elements[i], k);
        if IsInternal(btype[s]) {
          pairs := pairs + {PairOf(neighbor, s)};
        }
      }
      assert forall e :: e in elements[..i + 1] <==> e in elements[..i] || e == elements[i];
    }
    assert elements[..|elements|] == elements;
  }

  /** The element table before partitioning: internal faces are exactly those with a neighbour. */
  ghost predicate Typed(elements: seq<nat>, neighbor: map<Side, nat>, btype: map<Side, nat>) {
    && FullTable(elements, neighbor) && FullTable(elements, btype)
    && forall s | s in neighbor :: (neighbor[s] != DEFAULT_ID <==> IsInternal(btype[s])) && !IsDistributed(btype[s])
  }

  /** The pairs left are exactly the pairs the partition separates. */
  lemma CutPairsAreSplit(elements: seq<nat>, neighbor: map<Side, nat>, btype: map<Side, nat>, marked: map<Side, nat>,
                         part: map<nat, nat>, p: (nat, nat))
    requires Typed(elements, neighbor, btype) && marked.Keys == btype.Keys
    requires forall s | s in btype :: marked[s] == if Split(neighbor, part, s) then Distributed(btype[s]) else btype[s]
    ensures JoinedBy(neighbor, btype, p) && !JoinedBy(neighbor, marked, p)
       <==> exists s :: Split(neighbor, part, s) && PairOf(neighbor, s) == p
  {
    if JoinedBy(neighbor, btype, p) && !JoinedBy(neighbor, marked, p) {
      var s :| s in neighbor && s in btype && IsInternal(btype[s]) && PairOf(neighbor, s) == p;
      assert Split(neighbor, part, s);
    }
    if s :| Split(neighbor, part, s) && PairOf(neighbor, s) == p {
      MarkOnceOnly(btype[s]);
      if t :| t in neighbor && t in marked && IsInternal(marked[t]) && PairOf(neighbor, t) == p {
        assert Split(neighbor, part, t);
        MarkOnceOnly(btype[t]);
      }
    }
  }

  // ----- pairing -----

  /** Both elements of a cut face with the face's number in each, the lower-coded unit's first. */
  datatype DBPair = DBPair(eltA: nat, eltB: nat, faceA: nat, faceB: nat, p: nat)

  /** The last face of e towards n; 3 if there is none. */
  function FaceTowards(neighbor: map<Side, nat>, e: nat, n: nat): (f: nat)
    ensures f <= 3
    ensures f < 3 ==> Side(e, f) in neighbor && neighbor[Side(e, f)] == n
    ensures f == 3 ==> forall k: nat | k < 3 :: Side(e, k) !in neighbor || neighbor[Side(e, k)] != n
  {
    if Side(e, 2) in neighbor && neighbor[Side(e, 2)] == n then 2
    else if Side(e, 1) in neighbor && neighbor[Side(e, 1)] == n then 1
    else if Side(e, 0) in neighbor && neighbor[Side(e, 0)] == n then 0
    else 3
  }

  method FindFace(neighbor: map<Side, nat>, e: nat, n: nat) returns (f: nat)
    requires forall k: nat | k < 3 :: Side(e, k) in neighbor
    ensures f == FaceTowards(neighbor, e, n)
  {
    f := 3;
    for k := 0 to 3
      invariant f <= 3
      invariant f == 3 ==> forall j: nat | j < k :: neighbor[Side(e, j)] != n
      invariant f < 3 ==> f < k && neighbor[Side(e, f)] == n && forall j: nat | f < j < k :: neighbor[Side(e, j)] != n
    {
      if n == neighbor[Side(e, k)] {
        f := k;
      }
    }
    assert f < 3 ==> neighbor[Side(e, f)] == n;
  }

  /** The unit codes of a pair, smaller first. */
  function CodePair(code: map<nat, nat>, pair: (nat, nat)): (nat, nat)
    requires pair.0 in code && pair.1 in code
  {
    if code[pair.0] < code[pair.1] then (code[pair.0], code[pair.1]) else (code[pair.1], code[pair.0])
  }

  function PairData(neighbor: map<Side, nat>, code: map<nat, nat>, pair: (nat, nat), p: nat): DBPair
    requires pair.0 in code && pair.1 in code
  {
    var fA, fB := FaceTowards(neighbor, pair.0, pair.1), FaceTowards(neighbor, pair.1, pair.0);
    if code[pair.0] > code[pair.1] then DBPair(pair.1, pair.0, fB, fA, p) else DBPair(pair.0, pair.1, fA, fB, p)
  }

  ghost predicate Coded(code: map<nat, nat>, order: seq<(nat, nat)>) {
    forall pair | pair in order :: pair.0 in code && pair.1 in code
  }

  /** The cut faces between two units, among the first n, in visiting order. */
  function SharedList(neighbor: map<Side, nat>, code: map<nat, nat>, order: seq<(nat, nat)>, p: nat, key: (nat, nat),
                      n: nat)
    : seq<DBPair>
    requires n <= |order| && Coded(code, order)
  {
    if n == 0 then [] else
      assert order[n - 1] in order;
      SharedList(neighbor, code, order, p, key, n - 1)
      + (if CodePair(code, order[n - 1]) == key then [PairData(neighbor, code, order[n - 1], p)] else [])
  }

  type Shared = map<(nat, nat), seq<DBPair>>

  /** The list of one key, empty while the key is absent. */
  function ListOf(shared: Shared, key: (nat, nat)): seq<DBPair> {
    if key in shared then shared[key] else []
  }

  ghost predicate Lists(neighbor: map<Side, nat>, code: map<nat, nat>, order: seq<(nat, nat)>, p: nat, n: nat,
                        shared: Shared)
    requires n <= |order| && Coded(code, order)
  {
    forall key :: ListOf(shared, key) == SharedList(neighbor, code, order, p, key, n)
        && (key in shared ==> shared[key] != [])
  }

  lemma ListsNext(neighbor: map<Side, nat>, code: map<nat, nat>, order: seq<(nat, nat)>, p: nat, n: nat, shared: Shared,
                  shared': Shared)
    requires n < |order| && Coded(code, order) && Lists(neighbor, code, order, p, n, shared)
    requires order[n].0 in code && order[n].1 in code
    requires var key := CodePair(code, order[n]);
             shared' == shared[key := ListOf(shared, key) + [PairData(neighbor, code, order[n], p)]]
    ensures Lists(neighbor, code, order, p, n + 1, shared')
  {
    forall key
      ensures ListOf(shared', key) == SharedList(neighbor, code, order, p, key, n + 1)
      ensures key in shared' ==> shared'[key] != []
    {
      assert ListOf(shared, key) == SharedList(neighbor, code, order, p, key, n);
    }
  }

  /** Appends every cut face, in the order the set is visited, to the list of its pair of units. */
  method BuildShared(elements: seq<nat>, neighbor: map<Side, nat>, code: map<nat, nat>, order: seq<(nat, nat)>, p: nat)
    returns (shared: Shared)
    requires FullTable(elements, neighbor) && Coded(code, order)
    requires forall pair | pair in order :: pair.0 in elements && pair.1 in elements
    ensures Lists(neighbor, code, order, p, |order|, shared)
  {
    shared := map[];
    for i := 0 to |order|
      invariant Lists(neighbor, code, order, p, i, shared)
    {
      assert order[i] in order;
      var key, data := PairUp(elements, neighbor, code, order[i], p);
      ghost var before := shared;
      shared := shared[key := ListOf(shared, key) + [data]];
      ListsNext(neighbor, code, order, p, i, before, shared);
    }
  }

  method PairUp(elements: seq<nat>, neighbor: map<Side, nat>, code: map<nat, nat>, face: (nat, nat), p: nat)
    returns (key: (nat, nat), data: DBPair)
    requires FullTable(elements, neighbor) && face.0 in elements && face.1 in elements && face.0 in code
             && face.1 in code
    ensures key == CodePair(code, face) && data == PairData(neighbor, code, face, p)
  {
    var (a, b) := face;
    var faceA := FindFace(neighbor, a, b);
    var faceB := FindFace(neighbor, b, a);
    key := if code[a] < code[b] then (code[a], code[b]) else (code[b], code[a]);
    data := if code[a] > code[b] then DBPair(b, a, faceB, faceA, p) else DBPair(a, b, faceA, faceB, p);
  }

  // ----- one file a unit -----

  /** A neighbourhood line with its faces. */
  datatype Record = Record(locA: nat, subA: nat, locB: nat, subB: nat, pairs: seq<DBPair>)

  /** loc + numLoc * sub names a unit; the writer takes it apart again. */
  function Code(numLoc: nat, loc: nat, sub: nat): nat {
    loc + numLoc * sub
  }

  lemma CodeDecodes(numLoc: nat, loc: nat, sub: nat)
    requires loc < numLoc
    ensures Code(numLoc, loc, sub) % numLoc == loc && Code(numLoc, loc, sub) / numLoc == sub
  {
    UniqueDivMod(numLoc, sub, loc, Code(numLoc, loc, sub));
  }

  function RecordOf(numLoc: nat, key: (nat, nat), pairs: seq<DBPair>): Record
    requires numLoc > 0
  {
    Record(key.0 % numLoc, key.0 / numLoc, key.1 % numLoc, key.1 / numLoc, pairs)
  }

  predicate Mentions(r: Record, loc: nat, sub: nat) {
    (r.locA == loc && r.subA == sub) || (r.locB == loc && r.subB == sub)
  }

  /** The records of one unit's file when the first n keys were visited. */
  function FileOf(shared: Shared, keys: seq<(nat, nat)>, numLoc: nat, loc: nat, sub: nat, n: nat): seq<Record>
    requires n <= |keys| && numLoc > 0 && forall k | k in keys :: k in shared
  {
    if n == 0 then [] else
      var r := RecordOf(numLoc, keys[n - 1], shared[keys[n - 1]]);
      FileOf(shared, keys, numLoc, loc, sub, n - 1) + (if Mentions(r, loc, sub) then [r] else [])
  }

  method WriteFile(shared: Shared, keys: seq<(nat, nat)>, numLoc: nat, loc: nat, sub: nat) returns (file: seq<Record>)
    requires numLoc > 0 && forall k | k in keys :: k in shared
    ensures file == FileOf(shared, keys, numLoc, loc, sub, |keys|)
  {
    file := [];
    for i := 0 to |keys|
      invariant file == FileOf(shared, keys, numLoc, loc, sub, i)
    {
      assert keys[i] in keys;
      var record := RecordOf(numLoc, keys[i], shared[keys[i]]);
      if Mentions(record, loc, sub) {
        file := file + [record];
      }
    }
  }

  // ----- reading -----

  datatype RankBoundary = RankBoundary(
    localityIn: nat, submeshIn: nat, localityEx: nat, submeshEx: nat,
    elementsIn: seq<nat>, elementsEx: seq<nat>, boundIdsIn: seq<nat>, boundIdsEx: seq<nat>, p: seq<nat>)

  ghost predicate Rectangular(b: RankBoundary) {
    |b.elementsIn| == |b.elementsEx| == |b.boundIdsIn| == |b.boundIdsEx| == |b.p|
  }

  datatype ReadResult = Ok(boundaries: seq<RankBoundary>) | WrongUnit(record: Record)

  /** A list of cut faces seen from its first or from its second unit. */
  function Elements(pairs: seq<DBPair>, first: bool): (v: seq<nat>)
    ensures |v| == |pairs|
  {
    seq(|pairs|, i requires 0 <= i < |pairs| => if first then pairs[i].eltA else pairs[i].eltB)
  }

  function BoundIds(pairs: seq<DBPair>, first: bool): (v: seq<nat>)
    ensures |v| == |pairs|
  {
    seq(|pairs|, i requires 0 <= i < |pairs| => if first then pairs[i].faceA else pairs[i].faceB)
  }

  function Orders(pairs: seq<DBPair>): (v: seq<nat>)
    ensures |v| == |pairs|
  {
    seq(|pairs|, i requires 0 <= i < |pairs| => pairs[i].p)
  }

  /** What a unit makes of a record that mentions it; first says whether it is the record's first unit. */
  function ViewOf(r: Record, first: bool): RankBoundary {
    if first then
      RankBoundary(r.locA, r.subA, r.locB, r.subB, Elements(r.pairs, true), Elements(r.pairs, false),
                   BoundIds(r.pairs, true), BoundIds(r.pairs, false), Orders(r.pairs))
    else
      RankBoundary(r.locB, r.subB, r.locA, r.subA, Elements(r.pairs, false), Elements(r.pairs, true),
                   BoundIds(r.pairs, false), BoundIds(r.pairs, true), Orders(r.pairs))
  }

  method ReadRecord(r: Record, first: bool) returns (b: RankBoundary)
    ensures b == ViewOf(r, first)
  {
    var elementsIn: seq<nat>, elementsEx: seq<nat> := [], [];
    var boundIdsIn: seq<nat>, boundIdsEx: seq<nat> := [], [];
    var p: seq<nat> := [];
    for db := 0 to |r.pairs|
      invariant elementsIn == Elements(r.pairs[..db], first) && elementsEx == Elements(r.pairs[..db], !first)
      invariant boundIdsIn == BoundIds(r.pairs[..db], first) && boundIdsEx == BoundIds(r.pairs[..db], !first)
      invariant p == Orders(r.pairs[..db])
    {
      var d := r.pairs[db];
      if first {
        elementsIn, elementsEx := elementsIn + [d.eltA], elementsEx + [d.eltB];
        boundIdsIn, boundIdsEx := boundIdsIn + [d.faceA], boundIdsEx + [d.faceB];
      } else {
        elementsIn, elementsEx := elementsIn + [d.eltB], elementsEx + [d.eltA];
        boundIdsIn, boundIdsEx := boundIdsIn + [d.faceB], boundIdsEx + [d.faceA];
      }
      p := p + [d.p];
    }
    assert r.pairs[..|r.pairs|] == r.pairs;
    b := if first then
      RankBoundary(r.locA, r.subA, r.locB, r.subB, elementsIn, elementsEx, boundIdsIn, boundIdsEx, p)
    else
      RankBoundary(r.locB, r.subB, r.locA, r.subA, elementsIn, elementsEx, boundIdsIn, boundIdsEx, p);
  }

  function ViewsOf(file: seq<Record>, loc: nat, sub: nat): seq<RankBoundary> {
    seq(|file|, i requires 0 <= i < |file| => ViewOf(file[i], file[i].locA == loc && file[i].subA == sub))
  }

  /** Reads a unit's file; a record about two other units is an error. */
  method ReadFile(file: seq<Record>, loc: nat, sub: nat) returns (r: ReadResult)
    ensures r.Ok? <==> forall i | 0 <= i < |file| :: Mentions(file[i], loc, sub)
    ensures r.WrongUnit? ==> r.record in file && !Mentions(r.record, loc, sub)
    ensures r.Ok? ==> r.boundaries == ViewsOf(file, loc, sub)
  {
    var boundaries := [];
    for i := 0 to |file|
      invariant |boundaries| == i
      invariant forall j | 0 <= j < i :: Mentions(file[j], loc, sub)
      invariant forall j | 0 <= j < i :: boundaries[j] == ViewOf(file[j], file[j].locA == loc && file[j].subA == sub)
    {
      if !Mentions(file[i], loc, sub) {
        return WrongUnit(file[i]);
      }
      var b := ReadRecord(file[i], file[i].locA == loc && file[i].subA == sub);
      boundaries := boundaries + [b];
    }
    r := Ok(boundaries);
  }
}
