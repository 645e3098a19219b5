/**
 What the two units on either side of a cut read back: the same faces, in the same order, seen from opposite
 sides, and every cut face exactly once.
 */
module MirroredReading {
  import opened Sides
  import opened Partitioning
  import opened DistributedInterfaces

  /** Neighbours know each other, and two elements share at most one face. */
  ghost predicate Simple(neighbor: map<Side, nat>) {
    && (forall s | s in neighbor && neighbor[s] != DEFAULT_ID ::
          s.face < 3 && neighbor[s] != s.elt && FaceTowards(neighbor, neighbor[s], s.elt) < 3)
    && (forall s, t | s in neighbor && t in neighbor && s.elt == t.elt && neighbor[s] == neighbor[t] != DEFAULT_ID ::
        s == t)
    && (forall s | s in neighbor :: s.elt != DEFAULT_ID)
  }

  /** The same face seen from the other element. */
  function Far(neighbor: map<Side, nat>, s: Side): Side
    requires s in neighbor
  {
    Side(neighbor[s], FaceTowards(neighbor, neighbor[s], s.elt))
  }

  lemma FarTwice(neighbor: map<Side, nat>, s: Side)
    requires Simple(neighbor) && s in neighbor && neighbor[s] != DEFAULT_ID
    ensures Far(neighbor, s) in neighbor && neighbor[Far(neighbor, s)] == s.elt && Far(neighbor, Far(neighbor, s)) == s
    ensures FaceTowards(neighbor, s.elt, neighbor[s]) == s.face
  {
    var f := FaceTowards(neighbor, s.elt, neighbor[s]);
    assert Side(s.elt, f) in neighbor;
  }

  // ----- the lists of cut faces -----

  /** order lists the cut pairs once each. */
  ghost predicate ListsCuts(neighbor: map<Side, nat>, code: map<nat, nat>, order: seq<(nat, nat)>) {
    && (forall i, j | 0 <= i < j < |order| :: order[i] != order[j])
    && (forall p :: p in order <==> CutPair(neighbor, code, p))
  }

  ghost predicate CutPair(neighbor: map<Side, nat>, code: map<nat, nat>, p: (nat, nat)) {
    exists s :: Split(neighbor, code, s) && PairOf(neighbor, s) == p
  }

  /** The mesh, the units of its elements, and the order in which the writer visits the cut pairs. */
  ghost predicate Setting(neighbor: map<Side, nat>, code: map<nat, nat>, order: seq<(nat, nat)>) {
    Simple(neighbor) && ListsCuts(neighbor, code, order) && Coded(code, order)
  }

  /** Entry d of the list for units (key.0, key.1) is one cut face, its first side in the first unit. */
  ghost predicate IsCutFace(neighbor: map<Side, nat>, code: map<nat, nat>, key: (nat, nat), d: DBPair) {
    var a, b := Side(d.eltA, d.faceA), Side(d.eltB, d.faceB);
    && Split(neighbor, code, a) && Split(neighbor, code, b) && Far(neighbor, a) == b && Far(neighbor, b) == a
    && code[d.eltA] == key.0 && code[d.eltB] == key.1 && key.0 < key.1
  }

  function SideA(d: DBPair): Side {
    Side(d.eltA, d.faceA)
  }

  function SideB(d: DBPair): Side {
    Side(d.eltB, d.faceB)
  }

  lemma PairDataIsCutFace(neighbor: map<Side, nat>, code: map<nat, nat>, order: seq<(nat, nat)>, p: nat, n: nat)
    requires Setting(neighbor, code, order) && n < |order| && order[n].0 in code && order[n].1 in code
    ensures IsCutFace(neighbor, code, CodePair(code, order[n]), PairData(neighbor, code, order[n], p))
    ensures PairOf(neighbor, SideA(PairData(neighbor, code, order[n], p))) == order[n]
  {
    assert order[n] in order;
    var s :| Split(neighbor, code, s) && PairOf(neighbor, s) == order[n];
    FarTwice(neighbor, s);
    FarTwice(neighbor, Far(neighbor, s));
  }

  /** Entries come from pairwise different pairs. */
  lemma {:induction false} EntriesAreCutFaces(neighbor: map<Side, nat>, code: map<nat, nat>, order: seq<(nat, nat)>,
                                              p: nat,
                                              key: (nat, nat), n: nat, i: nat)
    requires Setting(neighbor, code, order) && n <= |order|
    requires i < |SharedList(neighbor, code, order, p, key, n)|
    ensures var d := SharedList(neighbor, code, order, p, key, n)[i];
            && IsCutFace(neighbor, code, key, d) && PairOf(neighbor, SideA(d)) in order[..n] && d.p == p
  {
    assert order[n - 1] in order;
    if i < |SharedList(neighbor, code, order, p, key, n - 1)| {
      EntriesAreCutFaces(neighbor, code, order, p, key, n - 1, i);
    } else {
      PairDataIsCutFace(neighbor, code, order, p, n - 1);
      assert order[..n][n - 1] == order[n - 1];
    }
  }

  lemma {:induction false} EntriesDiffer(neighbor: map<Side, nat>, code: map<nat, nat>, order: seq<(nat, nat)>, p: nat,
                                         key: (nat, nat), n: nat, i: nat, j: nat)
    requires Setting(neighbor, code, order) && n <= |order|
    requires i < j < |SharedList(neighbor, code, order, p, key, n)|
    ensures var ds := SharedList(neighbor, code, order, p, key, n);
            SideA(ds[i]) != SideA(ds[j]) && SideB(ds[i]) != SideB(ds[j])
  {
    assert order[n - 1] in order;
    if j < |SharedList(neighbor, code, order, p, key, n - 1)| {
      EntriesDiffer(neighbor, code, order, p, key, n - 1, i, j);
    } else {
      EntriesAreCutFaces(neighbor, code, order, p, key, n - 1, i);
      EntriesAreCutFaces(neighbor, code, order, p, key, n, j);
      PairDataIsCutFace(neighbor, code, order, p, n - 1);
    }
  }

  /** The units on either side of a cut face, smaller first. */
  function KeyOf(neighbor: map<Side, nat>, code: map<nat, nat>, s: Side): (nat, nat)
    requires Split(neighbor, code, s)
  {
    CodePair(code, PairOf(neighbor, s))
  }

  lemma {:induction false} CutFaceIsListed(neighbor: map<Side, nat>, code: map<nat, nat>, order: seq<(nat, nat)>,
                                           p: nat,
                                           n: nat, s: Side, at: nat) returns (i: nat)
    requires Setting(neighbor, code, order) && at < n <= |order|
    requires Split(neighbor, code, s) && PairOf(neighbor, s) == order[at]
    ensures i < |SharedList(neighbor, code, order, p, KeyOf(neighbor, code, s), n)|
    ensures var d := SharedList(neighbor, code, order, p, KeyOf(neighbor, code, s), n)[i];
            s == if code[s.elt] == KeyOf(neighbor, code, s).0 then SideA(d) else SideB(d)
  {
    assert order[n - 1] in order;
    if at < n - 1 {
      i := CutFaceIsListed(neighbor, code, order, p, n - 1, s, at);
    } else {
      i := |SharedList(neighbor, code, order, p, KeyOf(neighbor, code, s), n - 1)|;
      FarTwice(neighbor, s);
      FarTwice(neighbor, Far(neighbor, s));
    }
  }

  // ----- the files -----

  /** The keys about unit u among the first n visited. */
  function KeysOf(keys: seq<(nat, nat)>, u: nat, n: nat): seq<(nat, nat)>
    requires n <= |keys|
  {
    if n == 0 then [] else KeysOf(keys, u, n - 1) + if keys[n - 1].0 == u || keys[n - 1].1 == u then [keys[n - 1]]
        else []
  }

  lemma MentionsDecodes(numLoc: nat, key: (nat, nat), pairs: seq<DBPair>, u: nat)
    requires numLoc > 0
    ensures Mentions(RecordOf(numLoc, key, pairs), u % numLoc, u / numLoc) <==> key.0 == u || key.1 == u
    ensures key.0 % numLoc == u % numLoc && key.0 / numLoc == u / numLoc <==> key.0 == u
  {
  }

  /** File i holds the record of the i-th key about the unit. */
  lemma {:induction false} FileFollowsKeys(shared: Shared, keys: seq<(nat, nat)>, numLoc: nat, u: nat, n: nat)
    requires n <= |keys| && numLoc > 0 && forall k | k in keys :: k in shared
    ensures var file, mine := FileOf(shared, keys, numLoc, u % numLoc, u / numLoc, n), KeysOf(keys, u, n);
            && |file| == |mine|
            && forall i | 0 <= i < |file| :: mine[i] in shared && file[i] == RecordOf(numLoc, mine[i], shared[mine[i]])
  {
    if n > 0 {
      FileFollowsKeys(shared, keys, numLoc, u, n - 1);
      assert keys[n - 1] in keys;
      MentionsDecodes(numLoc, keys[n - 1], shared[keys[n - 1]], u);
    }
  }

  lemma {:induction false} KeysOfUnit(keys: seq<(nat, nat)>, u: nat, n: nat)
    requires n <= |keys| && forall i, j | 0 <= i < j < |keys| :: keys[i] != keys[j]
    ensures forall k :: k in KeysOf(keys, u, n) <==> k in keys[..n] && (k.0 == u || k.1 == u)
    ensures forall i, j | 0 <= i < j < |KeysOf(keys, u, n)| :: KeysOf(keys, u, n)[i] != KeysOf(keys, u, n)[j]
  {
    if n > 0 {
      KeysOfUnit(keys, u, n - 1);
      assert keys[..n] == keys[..n - 1] + [keys[n - 1]];
    }
  }

  /** keys lists the pairs of units that share a cut face, once each. */
  ghost predicate ListsKeys(shared: Shared, keys: seq<(nat, nat)>) {
    && (forall i, j | 0 <= i < j < |keys| :: keys[i] != keys[j])
    && (forall k :: k in keys <==> k in shared)
  }

  /** Everything the preprocessor of the undivided mesh wrote. */
  ghost predicate Written(neighbor: map<Side, nat>, code: map<nat, nat>, order: seq<(nat, nat)>, p: nat, shared: Shared,
                          keys: seq<(nat, nat)>, numLoc: nat) {
    && Setting(neighbor, code, order) && Lists(neighbor, code, order, p, |order|, shared)
    && ListsKeys(shared, keys) && numLoc > 0
  }

  ghost function ReadBy(shared: Shared, keys: seq<(nat, nat)>, numLoc: nat, u: nat): seq<RankBoundary>
    requires numLoc > 0 && forall k | k in keys :: k in shared
  {
    ViewsOf(FileOf(shared, keys, numLoc, u % numLoc, u / numLoc, |keys|), u % numLoc, u / numLoc)
  }

  /** The code of the unit a rank boundary belongs to, and of the one beyond. */
  function CodeIn(numLoc: nat, b: RankBoundary): nat {
    Code(numLoc, b.localityIn, b.submeshIn)
  }

  function CodeEx(numLoc: nat, b: RankBoundary): nat {
    Code(numLoc, b.localityEx, b.submeshEx)
  }

  /** What unit u reads about key, when its list is pairs. */
  function ViewFrom(numLoc: nat, key: (nat, nat), pairs: seq<DBPair>, u: nat): RankBoundary
    requires numLoc > 0
  {
    ViewOf(RecordOf(numLoc, key, pairs), key.0 == u)
  }

  lemma CodeOfView(numLoc: nat, key: (nat, nat), pairs: seq<DBPair>, u: nat)
    requires numLoc > 0 && (key.0 == u || key.1 == u)
    ensures CodeIn(numLoc, ViewFrom(numLoc, key, pairs, u)) == u
    ensures CodeEx(numLoc, ViewFrom(numLoc, key, pairs, u)) == if key.0 == u then key.1 else key.0
  {
  }

  /** Every file is readable, and the i-th rank boundary read is the view of the unit's i-th key. */
  lemma {:induction false} ReadFollowsKeys(shared: Shared, keys: seq<(nat, nat)>, numLoc: nat, u: nat)
    requires numLoc > 0 && ListsKeys(shared, keys)
    ensures forall i | 0 <= i < |FileOf(shared, keys, numLoc, u % numLoc, u / numLoc, |keys|)| ::
              Mentions(FileOf(shared, keys, numLoc, u % numLoc, u / numLoc, |keys|)[i], u % numLoc, u / numLoc)
    ensures |ReadBy(shared, keys, numLoc, u)| == |KeysOf(keys, u, |keys|)|
    ensures forall i | 0 <= i < |ReadBy(shared, keys, numLoc, u)| ::
              var key := KeysOf(keys, u, |keys|)[i];
              && key in shared && (key.0 == u || key.1 == u)
              && ReadBy(shared, keys, numLoc, u)[i] == ViewFrom(numLoc, key, shared[key], u)
  {
    FileFollowsKeys(shared, keys, numLoc, u, |keys|);
    KeysOfUnit(keys, u, |keys|);
    var file, mine := FileOf(shared, keys, numLoc, u % numLoc, u / numLoc, |keys|), KeysOf(keys, u, |keys|);
    forall i | 0 <= i < |file|
      ensures Mentions(file[i], u % numLoc, u / numLoc) && (mine[i].0 == u || mine[i].1 == u)
      ensures ViewOf(file[i], file[i].locA == u % numLoc && file[i].subA == u / numLoc)
           == ViewFrom(numLoc, mine[i], shared[mine[i]], u)
    {
      assert mine[i] in mine;
      RecordOfUnit(numLoc, mine[i], shared[mine[i]], u);
    }
  }

  /** What a unit makes of a record about it. */
  lemma RecordOfUnit(numLoc: nat, key: (nat, nat), pairs: seq<DBPair>, u: nat)
    requires numLoc > 0 && (key.0 == u || key.1 == u)
    ensures var record := RecordOf(numLoc, key, pairs);
            && Mentions(record, u % numLoc, u / numLoc)
            && ViewOf(record, record.locA == u % numLoc && record.subA == u / numLoc) == ViewFrom(numLoc, key, pairs, u)
  {
    MentionsDecodes(numLoc, key, pairs, u);
  }

  /** Codes made of the ranks and numbers that round robin hands out tell parts apart. */
  lemma CodesNameParts(order: seq<Placed>, ranks: nat, rankOf: map<nat, nat>, localOf: map<nat, nat>, numLoc: nat,
                       i: nat, j: nat)
    requires ranks > 0 && i < j < |order| && AssignedUpTo(order, ranks, |order|, rankOf, localOf)
    requires RankAt(order, ranks, i) < numLoc && RankAt(order, ranks, j) < numLoc
    ensures order[i].part in rankOf && order[i].part in localOf && order[j].part in rankOf && order[j].part in localOf
    ensures Code(numLoc, rankOf[order[i].part], localOf[order[i].part])
         != Code(numLoc, rankOf[order[j].part], localOf[order[j].part])
  {
    assert Assigned(order, ranks, i, rankOf, localOf) && Assigned(order, ranks, j, rankOf, localOf);
    CodeDecodes(numLoc, rankOf[order[i].part], localOf[order[i].part]);
    CodeDecodes(numLoc, rankOf[order[j].part], localOf[order[j].part]);
    if RankAt(order, ranks, i) == RankAt(order, ranks, j) {
      PlacesDistinct(order, ranks, i, j);
    }
  }

  // ----- main results -----

  /** Two rank boundaries describe the same faces in the same order from opposite sides. */
  predicate MirrorImages(b: RankBoundary, b': RankBoundary) {
    && b.elementsIn == b'.elementsEx && b.elementsEx == b'.elementsIn
    && b.boundIdsIn == b'.boundIdsEx && b.boundIdsEx == b'.boundIdsIn && b.p == b'.p
    && b.localityIn == b'.localityEx && b.submeshIn == b'.submeshEx
    && b.localityEx == b'.localityIn && b.submeshEx == b'.submeshIn
  }

  /** For each neighbour a unit reads about, that neighbour reads about it, exactly once, and reads the mirror image. */
  lemma ReadersMirror(shared: Shared, keys: seq<(nat, nat)>, numLoc: nat, u: nat, i: nat) returns (j: nat)
    requires numLoc > 0 && ListsKeys(shared, keys) && (forall key | key in shared :: key.0 < key.1)
    requires i < |ReadBy(shared, keys, numLoc, u)|
    ensures var b := ReadBy(shared, keys, numLoc, u)[i];
            var theirs := ReadBy(shared, keys, numLoc, CodeEx(numLoc, b));
            && CodeIn(numLoc, b) == u != CodeEx(numLoc, b)
            && j < |theirs| && MirrorImages(b, theirs[j])
            && forall k | 0 <= k < |theirs| && CodeEx(numLoc, theirs[k]) == u :: k == j
  {
    ReadFollowsKeys(shared, keys, numLoc, u);
    var key := KeysOf(keys, u, |keys|)[i];
    var v := if key.0 == u then key.1 else key.0;
    CodeOfView(numLoc, key, shared[key], u);
    ReadFollowsKeys(shared, keys, numLoc, v);
    KeysOfUnit(keys, u, |keys|);
    KeysOfUnit(keys, v, |keys|);
    assert key in KeysOf(keys, u, |keys|);
    assert key in KeysOf(keys, v, |keys|);
    var theirs := KeysOf(keys, v, |keys|);
    j :| 0 <= j < |theirs| && theirs[j] == key;
    forall k | 0 <= k < |theirs| && CodeEx(numLoc, ReadBy(shared, keys, numLoc, v)[k]) == u
      ensures k == j
    {
      CodeOfView(numLoc, theirs[k], shared[theirs[k]], v);
      assert theirs[k] in theirs;
    }
  }

  lemma KeysAreOrdered(neighbor: map<Side, nat>, code: map<nat, nat>, order: seq<(nat, nat)>, p: nat, shared: Shared,
                       keys: seq<(nat, nat)>, numLoc: nat, key: (nat, nat))
    requires Written(neighbor, code, order, p, shared, keys, numLoc) && key in shared
    ensures key.0 < key.1
  {
    assert ListOf(shared, key) == SharedList(neighbor, code, order, p, key, |order|);
    EntriesAreCutFaces(neighbor, code, order, p, key, |order|, 0);
  }

  /** The k-th face of a rank boundary from inside. */
  function FaceIn(b: RankBoundary, k: nat): Side
    requires k < |b.elementsIn| && k < |b.boundIdsIn|
  {
    Side(b.elementsIn[k], b.boundIdsIn[k])
  }

  function FaceEx(b: RankBoundary, k: nat): Side
    requires k < |b.elementsEx| && k < |b.boundIdsEx|
  {
    Side(b.elementsEx[k], b.boundIdsEx[k])
  }

  /** Every face a unit reads is a cut face of one of its elements, with its far side in the neighbour named. */
  lemma ReadFacesAreCut(neighbor: map<Side, nat>, code: map<nat, nat>, order: seq<(nat, nat)>, p: nat, shared: Shared,
                        keys: seq<(nat, nat)>, numLoc: nat, u: nat, i: nat, k: nat)
    requires Written(neighbor, code, order, p, shared, keys, numLoc)
    requires i < |ReadBy(shared, keys, numLoc, u)| && k < |ReadBy(shared, keys, numLoc, u)[i].elementsIn|
    ensures var b := ReadBy(shared, keys, numLoc, u)[i];
            && Rectangular(b) && Split(neighbor, code, FaceIn(b, k)) && Far(neighbor, FaceIn(b, k)) == FaceEx(b, k)
            && code[FaceIn(b, k).elt] == u && code[FaceEx(b, k).elt] == CodeEx(numLoc, b) && b.p[k] == p
  {
    ReadFollowsKeys(shared, keys, numLoc, u);
    var key := KeysOf(keys, u, |keys|)[i];
    assert ListOf(shared, key) == SharedList(neighbor, code, order, p, key, |order|);
    EntriesAreCutFaces(neighbor, code, order, p, key, |order|, k);
    CodeOfView(numLoc, key, shared[key], u);
  }

  /** The unit of a cut face's element reads it. */
  lemma CutFaceIsRead(neighbor: map<Side, nat>, code: map<nat, nat>, order: seq<(nat, nat)>, p: nat, shared: Shared,
                      keys: seq<(nat, nat)>, numLoc: nat, s: Side) returns (i: nat, k: nat)
    requires Written(neighbor, code, order, p, shared, keys, numLoc) && Split(neighbor, code, s)
    ensures i < |ReadBy(shared, keys, numLoc, code[s.elt])|
    ensures var b := ReadBy(shared, keys, numLoc, code[s.elt])[i];
            k < |b.elementsIn| == |b.boundIdsIn| && FaceIn(b, k) == s
  {
    var key := KeyOf(neighbor, code, s);
    assert CutPair(neighbor, code, PairOf(neighbor, s));
    var at :| 0 <= at < |order| && order[at] == PairOf(neighbor, s);
    k := CutFaceIsListed(neighbor, code, order, p, |order|, s, at);
    assert ListOf(shared, key) == SharedList(neighbor, code, order, p, key, |order|);
    assert key in shared && key in keys;
    i := KeyIsRead(shared, keys, numLoc, code[s.elt], key);
  }

  /** A unit reads about every pair of units that it is in. */
  lemma KeyIsRead(shared: Shared, keys: seq<(nat, nat)>, numLoc: nat, u: nat, key: (nat, nat)) returns (i: nat)
    requires numLoc > 0 && ListsKeys(shared, keys) && key in keys && (key.0 == u || key.1 == u)
    ensures i < |ReadBy(shared, keys, numLoc, u)| && key in shared
    ensures ReadBy(shared, keys, numLoc, u)[i] == ViewFrom(numLoc, key, shared[key], u)
  {
    KeysOfUnit(keys, u, |keys|);
    assert key in KeysOf(keys, u, |keys|);
    i :| 0 <= i < |KeysOf(keys, u, |keys|)| && KeysOf(keys, u, |keys|)[i] == key;
    ReadFollowsKeys(shared, keys, numLoc, u);
  }

  /** A unit never reads a cut face twice. */
  lemma FacesReadOnce(neighbor: map<Side, nat>, code: map<nat, nat>, order: seq<(nat, nat)>, p: nat, shared: Shared,
                      keys: seq<(nat, nat)>, numLoc: nat, u: nat, i: nat, k: nat, i': nat, k': nat)
    requires Written(neighbor, code, order, p, shared, keys, numLoc)
    requires i < |ReadBy(shared, keys, numLoc, u)| && k < |ReadBy(shared, keys, numLoc, u)[i].elementsIn|
    requires i' < |ReadBy(shared, keys, numLoc, u)| && k' < |ReadBy(shared, keys, numLoc, u)[i'].elementsIn|
    requires |ReadBy(shared, keys, numLoc, u)[i].elementsIn| == |ReadBy(shared, keys, numLoc, u)[i].boundIdsIn|
    requires |ReadBy(shared, keys, numLoc, u)[i'].elementsIn| == |ReadBy(shared, keys, numLoc, u)[i'].boundIdsIn|
    requires FaceIn(ReadBy(shared, keys, numLoc, u)[i], k) == FaceIn(ReadBy(shared, keys, numLoc, u)[i'], k')
    ensures i == i' && k == k'
  {
    ReadFacesAreCut(neighbor, code, order, p, shared, keys, numLoc, u, i, k);
    ReadFacesAreCut(neighbor, code, order, p, shared, keys, numLoc, u, i', k');
    ReadFollowsKeys(shared, keys, numLoc, u);
    var mine := KeysOf(keys, u, |keys|);
    KeysOfUnit(keys, u, |keys|);
    KeysAreOrdered(neighbor, code, order, p, shared, keys, numLoc, mine[i]);
    KeysAreOrdered(neighbor, code, order, p, shared, keys, numLoc, mine[i']);
    CodeOfView(numLoc, mine[i], shared[mine[i]], u);
    CodeOfView(numLoc, mine[i'], shared[mine[i']], u);
    assert mine[i] == mine[i'];
    var key := mine[i];
    assert ListOf(shared, key) == SharedList(neighbor, code, order, p, key, |order|);
    if k < k' {
      EntriesDiffer(neighbor, code, order, p, key, |order|, k, k');
    } else if k' < k {
      EntriesDiffer(neighbor, code, order, p, key, |order|, k', k);
    }
  }
}
