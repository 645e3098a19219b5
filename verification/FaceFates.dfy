/**
 What becomes of the faces of one unit of a prepared mesh: initialization succeeds, and every face of every element
 ends in exactly one interface, boundary or distributed boundary, of the kind it should be.
 */
module FaceFates {
  import opened EdgeTypes
  import opened Sequences
  import opened Sides
  import opened Partitioning
  import opened DistributedInterfaces
  import opened MirroredReading
  import opened BufferOffsets
  import opened RawBoundaries

  /** The undivided mesh with its partition, and the metadata written for it.  `code` names the unit of an element. */
  datatype Prepared = Prepared(
    elements: seq<nat>, neighbor: map<Side, nat>, btype: map<Side, nat>, code: map<nat, nat>,
    order: seq<(nat, nat)>, p: nat, shared: Shared, keys: seq<(nat, nat)>, numLoc: nat, kinds: seq<nat>)
  {
    /**
     Internal faces are plain or levees, seen alike from both sides; boundary faces are of kinds the problem knows.
     */
    ghost predicate Valid() {
      && Typed(elements, neighbor, btype)
      && (forall e :: e in elements <==> e in code)
      && (forall s | s in btype && IsInternal(btype[s]) ::
            (btype[s] == INTERNAL || btype[s] == LEVEE)
                && (Far(neighbor, s) in btype ==> btype[Far(neighbor, s)] == btype[s]))
      && (forall s | s in btype && IsBoundary(btype[s]) :: btype[s] in kinds) && Kinds(kinds)
      && Written(neighbor, code, order, p, shared, keys, numLoc)
    }

    predicate Cut(s: Side) {
      Split(neighbor, code, s)
    }

    /** The type of a face in the submesh files, where cut faces are marked. */
    function Kind(s: Side): nat {
      if s !in btype then 0 else if Cut(s) then Distributed(btype[s]) else btype[s]
    }

    predicate Mine(u: nat, s: Side) {
      s.face < 3 && s.elt in code && code[s.elt] == u
    }

    function SlotKey(s: Side): Key {
      if IsInternal(Kind(s)) && s in neighbor then (s.elt, neighbor[s]) else (s.elt, s.face)
    }

    /** The submesh of a unit. */
    ghost predicate OwnedBy(u: nat, own: seq<nat>) {
      && (forall e :: e in own <==> e in code && code[e] == u)
      && (forall i, j | 0 <= i < j < |own| :: own[i] != own[j])
    }

    /** The metadata of unit u. */
    ghost function Read(u: nat): seq<RankBoundary>
      requires numLoc > 0 && ListsKeys(shared, keys)
    {
      ReadBy(shared, keys, numLoc, u)
    }

    /** The filled tables hold exactly the unit's faces. */
    ghost predicate Filled(u: nat, reg: map<nat, Table>) {
      forall t, k, s :: Entry(reg, t, k, s) <==> Mine(u, s) && Kind(s) == t && SlotKey(s) == k
    }
  }

  lemma ValidBasics(w: Prepared, u: nat, s: Side)
    requires w.Valid() && w.Mine(u, s)
    ensures s in w.neighbor && s in w.btype
    ensures w.neighbor[s] != DEFAULT_ID ==>
              && Far(w.neighbor, s) in w.neighbor && w.neighbor[Far(w.neighbor, s)] == s.elt
              && Far(w.neighbor, Far(w.neighbor, s)) == s && Far(w.neighbor, s).face < 3 && w.neighbor[s] in w.code
  {
    if w.neighbor[s] != DEFAULT_ID {
      FarTwice(w.neighbor, s);
    }
  }

  /** The five fates by type. */
  lemma KindCases(w: Prepared, u: nat, s: Side)
    requires w.Valid() && w.Mine(u, s)
    ensures s in w.neighbor && s in w.btype
    ensures w.Cut(s) ==> IsCut(w.Kind(s)) && w.neighbor[s] != DEFAULT_ID
    ensures !w.Cut(s) && w.neighbor[s] != DEFAULT_ID
            ==> (w.Kind(s) == INTERNAL || w.Kind(s) == LEVEE) && w.code[w.neighbor[s]] == u
    ensures w.neighbor[s] == DEFAULT_ID ==> IsBoundary(w.Kind(s)) && w.Kind(s) in w.kinds
  {
    ValidBasics(w, u, s);
    assert !IsDistributed(w.btype[s]);
    if w.neighbor[s] == DEFAULT_ID {
      assert !IsInternal(w.btype[s]);
    }
  }

  function Restrict(table: map<Side, nat>, own: seq<nat>): map<Side, nat> {
    map s | s in table && s.elt in own :: table[s]
  }

  /** The types written to the submesh files. */
  function Marked(w: Prepared): map<Side, nat> {
    map s | s in w.btype :: w.Kind(s)
  }

  /** With one shared face per pair no face of an element displaces another. */
  lemma RegistersAll(w: Prepared, u: nat, own: seq<nat>, reg: map<nat, Table>)
    requires w.Valid() && w.OwnedBy(u, own)
    requires Registered(Restrict(w.neighbor, own), Restrict(Marked(w), own), SidesOfElements(own), reg)
    ensures w.Filled(u, reg)
  {
    var nb, bt := Restrict(w.neighbor, own), Restrict(Marked(w), own);
    forall t, k, s
      ensures Entry(reg, t, k, s) <==> w.Mine(u, s) && w.Kind(s) == t && w.SlotKey(s) == k
    {
      assert s in SidesOfElements(own) <==> w.Mine(u, s);
      if w.Mine(u, s) {
        ValidBasics(w, u, s);
        forall f: nat | f < s.face
          ensures !SameSlot(nb, bt, Side(s.elt, f), bt[s], KeyFor(nb, bt, s))
        {
          KindCases(w, u, s);
          KindCases(w, u, Side(s.elt, f));
        }
        assert Survives(nb, bt, s);
      }
    }
  }

  // ----- interfaces -----

  /** f joins the lower-numbered element's view of a face to the other element's. */
  ghost predicate Joins(w: Prepared, u: nat, t: nat, f: Interface) {
    && w.Mine(u, f.inner) && w.Mine(u, f.outer) && w.Kind(f.inner) == t && !w.Cut(f.inner)
    && f.inner in w.neighbor && w.neighbor[f.inner] != DEFAULT_ID && f.outer == Far(w.neighbor, f.inner)
    && f.inner.elt < f.outer.elt
  }

  /** Interfaces of one type, each once. */
  ghost predicate AllJoin(w: Prepared, u: nat, t: nat, fs: seq<Interface>) {
    && (forall i | 0 <= i < |fs| :: Joins(w, u, t, fs[i]))
    && (forall i, j | 0 <= i < j < |fs| :: fs[i].inner != fs[j].inner)
  }

  lemma FilledAt(w: Prepared, u: nat, reg: map<nat, Table>, t: nat, k: Key)
    requires w.Filled(u, reg) && k in TableOf(reg, t)
    ensures var s := TableOf(reg, t)[k]; w.Mine(u, s) && w.Kind(s) == t && w.SlotKey(s) == k
  {
    assert Entry(reg, t, k, reg[t][k]);
  }

  lemma PairIsFace(w: Prepared, u: nat, reg: map<nat, Table>, t: nat, k: Key)
    requires w.Valid() && w.Filled(u, reg) && IsInternal(t)
    requires k in TableOf(reg, t) && Swap(k) in TableOf(reg, t) && k.0 <= k.1
    ensures Joins(w, u, t, InterfaceAt(TableOf(reg, t), k))
    ensures TableOf(reg, t)[k].elt == k.0 && TableOf(reg, t)[Swap(k)].elt == k.1
  {
    var m := TableOf(reg, t);
    FilledAt(w, u, reg, t, k);
    FilledAt(w, u, reg, t, Swap(k));
    KindCases(w, u, m[k]);
    KindCases(w, u, m[Swap(k)]);
    FarTwice(w.neighbor, m[k]);
  }

  lemma FaceIsPaired(w: Prepared, u: nat, reg: map<nat, Table>, s: Side)
    requires w.Valid() && w.Filled(u, reg) && w.Mine(u, s) && IsInternal(w.Kind(s))
    ensures s in w.neighbor
    ensures var m, k := TableOf(reg, w.Kind(s)), (s.elt, w.neighbor[s]);
            && w.neighbor[s] != s.elt && w.Mine(u, Far(w.neighbor, s))
            && k in m && Swap(k) in m && m[k] == s && m[Swap(k)] == Far(w.neighbor, s)
  {
    KindCases(w, u, s);
    ValidBasics(w, u, s);
    var far := Far(w.neighbor, s);
    KindCases(w, u, far);
    assert Entry(reg, w.Kind(s), (s.elt, w.neighbor[s]), s);
    assert Entry(reg, w.Kind(far), (far.elt, s.elt), far);
  }

  /** The table of an internal type becomes the interfaces of that type, each once. */
  lemma InterfacesExact(w: Prepared, u: nat, reg: map<nat, Table>, t: nat)
    requires w.Valid() && w.Filled(u, reg) && IsInternal(t)
    ensures AllJoin(w, u, t, InterfacesOf(TableOf(reg, t)))
  {
    var m := TableOf(reg, t);
    InterfacesFollowKeys(m);
    PairKeysExact(m.Keys);
    var fs, ks := InterfacesOf(m), PairKeys(m.Keys);
    forall i | 0 <= i < |fs|
      ensures Joins(w, u, t, fs[i]) && fs[i].inner.elt == ks[i].0 && fs[i].outer.elt == ks[i].1
    {
      PairIsFace(w, u, reg, t, ks[i]);
    }
    forall i, j | 0 <= i < j < |fs|
      ensures fs[i].inner != fs[j].inner
    {
      assert Before(ks[i], ks[j]);
      PairIsFace(w, u, reg, t, ks[i]);
      PairIsFace(w, u, reg, t, ks[j]);
    }
  }

  lemma InterfacesComplete(w: Prepared, u: nat, reg: map<nat, Table>, s: Side)
    requires w.Valid() && w.Filled(u, reg) && w.Mine(u, s) && IsInternal(w.Kind(s))
    ensures exists i :: 0 <= i < |InterfacesOf(TableOf(reg, w.Kind(s)))|
                     && (InterfacesOf(TableOf(reg, w.Kind(s)))[i].inner == s
                         || InterfacesOf(TableOf(reg, w.Kind(s)))[i].outer == s)
  {
    FaceIsPaired(w, u, reg, s);
    var m, k := TableOf(reg, w.Kind(s)), (s.elt, w.neighbor[s]);
    InterfacesFollowKeys(m);
    PairKeysExact(m.Keys);
    var low := if s.elt < w.neighbor[s] then k else Swap(k);
    assert low in PairKeys(m.Keys);
    var i :| 0 <= i < |PairKeys(m.Keys)| && PairKeys(m.Keys)[i] == low;
    assert InterfacesOf(m)[i] == InterfaceAt(m, low);
  }

  // ----- boundaries -----

  lemma BoundariesExact(w: Prepared, u: nat, reg: map<nat, Table>, t: nat)
    requires w.Valid() && w.Filled(u, reg) && IsBoundary(t)
    ensures forall s :: s in BoundariesOf(TableOf(reg, t)) <==> w.Mine(u, s) && w.Kind(s) == t
    ensures Distinct(BoundariesOf(TableOf(reg, t)))
  {
    var m := TableOf(reg, t);
    BoundariesFollowKeys(m);
    SortedExact(m.Keys);
    var ss, ks := BoundariesOf(m), Sorted(m.Keys);
    forall i | 0 <= i < |ss|
      ensures w.Mine(u, ss[i]) && w.Kind(ss[i]) == t && w.SlotKey(ss[i]) == ks[i]
    {
      FilledAt(w, u, reg, t, ks[i]);
    }
    forall s | w.Mine(u, s) && w.Kind(s) == t
      ensures s in ss
    {
      assert Entry(reg, t, w.SlotKey(s), s);
      var i :| 0 <= i < |ks| && ks[i] == w.SlotKey(s);
      assert ss[i] == s;
    }
  }

  lemma {:induction false} AllBoundariesExact(w: Prepared, u: nat, reg: map<nat, Table>, n: nat)
    requires w.Valid() && w.Filled(u, reg) && n <= |w.kinds|
    ensures forall s :: s in AllBoundaries(reg, w.kinds, n) <==> w.Mine(u, s) && w.Kind(s) in w.kinds[..n]
    ensures Distinct(AllBoundaries(reg, w.kinds, n))
  {
    if n > 0 {
      AllBoundariesExact(w, u, reg, n - 1);
      assert w.kinds[n - 1] in w.kinds;
      BoundariesExact(w, u, reg, w.kinds[n - 1]);
      OneMoreKind(w.kinds, n);
      OneMoreTable(w, u, w.kinds[..n - 1], w.kinds[n - 1], AllBoundaries(reg, w.kinds, n - 1),
                   BoundariesOf(TableOf(reg, w.kinds[n - 1])));
    }
  }

  lemma OneMoreKind(kinds: seq<nat>, n: nat)
    requires 0 < n <= |kinds| && Kinds(kinds)
    ensures kinds[..n] == kinds[..n - 1] + [kinds[n - 1]] && kinds[n - 1] !in kinds[..n - 1]
  {
  }

  /** The boundaries of one more type, next to those of the types before. */
  lemma OneMoreTable(w: Prepared, u: nat, before: seq<nat>, t: nat, a: seq<Side>, b: seq<Side>)
    requires t !in before && Distinct(a) && Distinct(b)
    requires forall s :: s in a <==> w.Mine(u, s) && w.Kind(s) in before
    requires forall s :: s in b <==> w.Mine(u, s) && w.Kind(s) == t
    ensures forall s :: s in a + b <==> w.Mine(u, s) && w.Kind(s) in before + [t]
    ensures Distinct(a + b)
  {
    DistinctConcat(a, b);
  }

  // ----- cut faces -----

  lemma ReadRectangular(w: Prepared, u: nat)
    requires w.Valid()
    ensures AllRectangular(w.Read(u))
  {
    ReadFollowsKeys(w.shared, w.keys, w.numLoc, u);
  }

  /** Entry k of rank boundary i is a cut face of the unit, found in the tables. */
  lemma ReadFaceFound(w: Prepared, u: nat, reg: map<nat, Table>, i: nat, k: nat)
    requires w.Valid() && w.Filled(u, reg) && i < |w.Read(u)| && Rectangular(w.Read(u)[i]) && k < |w.Read(u)[i].p|
    ensures var s := FaceIn(w.Read(u)[i], k);
            && w.Mine(u, s) && w.Cut(s) && FoundIn(reg, FaceKey(w.Read(u)[i], k))
                && FaceAt(reg, FaceKey(w.Read(u)[i], k)) == s
  {
    ReadFacesAreCut(w.neighbor, w.code, w.order, w.p, w.shared, w.keys, w.numLoc, u, i, k);
    var s := FaceIn(w.Read(u)[i], k);
    FarTwice(w.neighbor, s);
    assert s in w.neighbor && s in w.btype;
    KindCases(w, u, s);
    var key := FaceKey(w.Read(u)[i], k);
    assert Entry(reg, w.Kind(s), key, s);
    if key in TableOf(reg, DISTRIBUTED) {
      FilledAt(w, u, reg, DISTRIBUTED, key);
    }
  }

  lemma TakesConcat(raw: map<nat, Table>, a: seq<Key>, b: seq<Key>)
    requires Takes(raw, a) && Distinct(b) && forall k | k in b :: FoundIn(raw, k) && k !in a
    ensures Takes(raw, a + b)
  {
    forall i | 0 <= i < |a + b|
      ensures FoundIn(raw, (a + b)[i]) && (a + b)[i] !in (a + b)[..i]
    {
      if i < |a| {
        assert (a + b)[..i] == a[..i];
      } else {
        assert (a + b)[..i] == a + b[..i - |a|];
        assert (a + b)[i] == b[i - |a|] && b[i - |a|] in b;
      }
    }
  }

  /** Position (i, j) of the metadata of unit u. */
  ghost predicate Position(w: Prepared, u: nat, n: nat, i: nat, j: nat)
    requires w.Valid() && n <= |w.Read(u)|
  {
    i < n && Rectangular(w.Read(u)[i]) && j < |w.Read(u)[i].p|
  }

  ghost predicate KeyFrom(w: Prepared, u: nat, n: nat, k: Key)
    requires w.Valid() && n <= |w.Read(u)|
  {
    exists i: nat, j: nat :: Position(w, u, n, i, j) && FaceKey(w.Read(u)[i], j) == k
  }

  /** The faces of rank boundary n are new, found, and pairwise different. */
  lemma NextKeysFresh(w: Prepared, u: nat, reg: map<nat, Table>, n: nat)
    requires w.Valid() && w.Filled(u, reg) && n < |w.Read(u)|
    ensures Rectangular(w.Read(u)[n])
    ensures Distinct(FaceKeys(w.Read(u)[n], |w.Read(u)[n].p|))
    ensures forall k | k in FaceKeys(w.Read(u)[n], |w.Read(u)[n].p|) :: FoundIn(reg, k) && !KeyFrom(w, u, n, k)
  {
    ReadRectangular(w, u);
    var b := w.Read(u)[n];
    assert b in w.Read(u);
    var ks := FaceKeys(b, |b.p|);
    forall i, j | 0 <= i < j < |ks|
      ensures ks[i] != ks[j]
    {
      if ks[i] == ks[j] {
        FacesReadOnce(w.neighbor, w.code, w.order, w.p, w.shared, w.keys, w.numLoc, u, n, i, n, j);
      }
    }
    forall j | 0 <= j < |ks|
      ensures FoundIn(reg, ks[j]) && !KeyFrom(w, u, n, ks[j])
    {
      ReadFaceFound(w, u, reg, n, j);
      if KeyFrom(w, u, n, ks[j]) {
        var i': nat, j': nat :| Position(w, u, n, i', j') && FaceKey(w.Read(u)[i'], j') == ks[j];
        FacesReadOnce(w.neighbor, w.code, w.order, w.p, w.shared, w.keys, w.numLoc, u, n, j, i', j');
      }
    }
  }

  lemma KeyFromNext(w: Prepared, u: nat, n: nat, k: Key)
    requires w.Valid() && n < |w.Read(u)| && Rectangular(w.Read(u)[n])
    ensures KeyFrom(w, u, n + 1, k) <==> KeyFrom(w, u, n, k) || k in FaceKeys(w.Read(u)[n], |w.Read(u)[n].p|)
  {
    var b := w.Read(u)[n];
    var ks := FaceKeys(b, |b.p|);
    if k in ks {
      var j :| 0 <= j < |ks| && ks[j] == k;
      assert Position(w, u, n + 1, n, j) && FaceKey(b, j) == k;
    }
    if KeyFrom(w, u, n, k) {
      var i: nat, j: nat :| Position(w, u, n, i, j) && FaceKey(w.Read(u)[i], j) == k;
      assert Position(w, u, n + 1, i, j);
    }
    if KeyFrom(w, u, n + 1, k) {
      var i: nat, j: nat :| Position(w, u, n + 1, i, j) && FaceKey(w.Read(u)[i], j) == k;
      assert i < n ==> Position(w, u, n, i, j);
      assert i == n ==> ks[j] == k;
    }
  }

  lemma {:induction false} KeysAreNamed(w: Prepared, u: nat, n: nat, k: Key)
    requires w.Valid() && n <= |w.Read(u)| && AllRectangular(w.Read(u))
    ensures k in AllKeys(w.Read(u), n) <==> KeyFrom(w, u, n, k)
  {
    if n > 0 {
      assert w.Read(u)[n - 1] in w.Read(u);
      KeysAreNamed(w, u, n - 1, k);
      KeyFromNext(w, u, n - 1, k);
    }
  }

  lemma NextKeysNew(w: Prepared, u: nat, reg: map<nat, Table>, n: nat)
    requires w.Valid() && w.Filled(u, reg) && n < |w.Read(u)| && AllRectangular(w.Read(u))
    ensures Rectangular(w.Read(u)[n])
    ensures forall k | k in FaceKeys(w.Read(u)[n], |w.Read(u)[n].p|) :: k !in AllKeys(w.Read(u), n)
  {
    NextKeysFresh(w, u, reg, n);
    var bs := w.Read(u);
    forall k | k in FaceKeys(bs[n], |bs[n].p|)
      ensures k !in AllKeys(bs, n)
    {
      KeysAreNamed(w, u, n, k);
    }
  }

  /** The metadata names each cut face of the unit once. */
  lemma CutKeysTaken(w: Prepared, u: nat, reg: map<nat, Table>)
    requires w.Valid() && w.Filled(u, reg) && AllRectangular(w.Read(u))
    ensures Takes(reg, AllKeys(w.Read(u), |w.Read(u)|))
  {
    forall n | 0 <= n < |w.Read(u)|
      ensures NewFaces(reg, w.Read(u), n)
    {
      NextKeysFresh(w, u, reg, n);
      NextKeysNew(w, u, reg, n);
    }
    AllTaken(reg, w.Read(u), |w.Read(u)|);
  }

  /** The faces of rank boundary n are there, each once, and none is named by an earlier one. */
  ghost predicate NewFaces(reg: map<nat, Table>, bs: seq<RankBoundary>, n: nat)
    requires n < |bs| && AllRectangular(bs)
  {
    && Rectangular(bs[n]) && Distinct(FaceKeys(bs[n], |bs[n].p|))
    && forall k | k in FaceKeys(bs[n], |bs[n].p|) :: FoundIn(reg, k) && k !in AllKeys(bs, n)
  }

  lemma {:induction false} AllTaken(reg: map<nat, Table>, bs: seq<RankBoundary>, n: nat)
    requires AllRectangular(bs) && n <= |bs| && forall i | 0 <= i < |bs| :: NewFaces(reg, bs, i)
    ensures Takes(reg, AllKeys(bs, n))
  {
    if n > 0 {
      AllTaken(reg, bs, n - 1);
      assert NewFaces(reg, bs, n - 1);
      TakesNext(reg, bs, n - 1);
    }
  }

  lemma TakesNext(reg: map<nat, Table>, bs: seq<RankBoundary>, n: nat)
    requires AllRectangular(bs) && n < |bs| && Takes(reg, AllKeys(bs, n)) && NewFaces(reg, bs, n)
    ensures Takes(reg, AllKeys(bs, n + 1))
  {
    assert bs[n] in bs;
    TakesConcat(reg, AllKeys(bs, n), FaceKeys(bs[n], |bs[n].p|));
  }

  /** The cut faces of the unit are the faces the metadata names. */
  lemma CutFaceNamed(w: Prepared, u: nat, s: Side)
    requires w.Valid() && w.Mine(u, s) && w.Cut(s)
    ensures KeyFrom(w, u, |w.Read(u)|, (s.elt, s.face))
  {
    var i, k := CutFaceIsRead(w.neighbor, w.code, w.order, w.p, w.shared, w.keys, w.numLoc, s);
    ReadRectangular(w, u);
    assert w.Read(u)[i] in w.Read(u);
    assert Position(w, u, |w.Read(u)|, i, k);
  }

  /** On prepared input the metadata matches the tables: no face is missing, named twice, or left over. */
  lemma NothingIsLeft(w: Prepared, u: nat, reg: map<nat, Table>)
    requires w.Valid() && w.Filled(u, reg)
    ensures AllRectangular(w.Read(u)) && CutsMatch(reg, w.Read(u), w.kinds)
  {
    ReadRectangular(w, u);
    CutKeysTaken(w, u, reg);
    forall t, k, s | Entry(reg, t, k, s)
      ensures Processed(w.kinds, AllKeys(w.Read(u), |w.Read(u)|), t, k)
    {
      KindCases(w, u, s);
      if w.Cut(s) {
        CutFaceNamed(w, u, s);
        KeysAreNamed(w, u, |w.Read(u)|, k);
      }
    }
  }

  // ----- every face has one fate -----

  lemma {:induction false} CutsFollowKeys(reg: map<nat, Table>, bs: seq<RankBoundary>, numGp: nat -> nat, n: nat)
    requires n <= |bs| && AllCutsFound(reg, bs, n) && AllRectangular(bs)
    ensures |AllCuts(reg, bs, numGp, n)| == |AllKeys(bs, n)|
    ensures forall i | 0 <= i < |AllKeys(bs, n)| ::
              FoundIn(reg, AllKeys(bs, n)[i]) && AllCuts(reg, bs, numGp, n)[i].side == FaceAt(reg, AllKeys(bs, n)[i])
  {
    if n > 0 {
      CutsFollowKeys(reg, bs, numGp, n - 1);
      assert AllFound(reg, bs[n - 1]) && bs[n - 1] in bs;
    }
  }

  /** Every key that the metadata names is the cut face of that element and number. */
  lemma NamedCut(w: Prepared, u: nat, reg: map<nat, Table>, k: Key)
    requires w.Valid() && w.Filled(u, reg) && AllRectangular(w.Read(u)) && k in AllKeys(w.Read(u), |w.Read(u)|)
    ensures FoundIn(reg, k) && FaceAt(reg, k) == Side(k.0, k.1) && w.Mine(u, FaceAt(reg, k)) && w.Cut(FaceAt(reg, k))
  {
    KeysAreNamed(w, u, |w.Read(u)|, k);
    var a: nat, j: nat :| Position(w, u, |w.Read(u)|, a, j) && FaceKey(w.Read(u)[a], j) == k;
    ReadFaceFound(w, u, reg, a, j);
  }

  /** The sides of the distributed boundaries are the unit's cut sides, each once. */
  lemma CutsExact(w: Prepared, u: nat, reg: map<nat, Table>, numGp: nat -> nat)
    requires w.Valid() && w.Filled(u, reg) && AllCutsFound(reg, w.Read(u), |w.Read(u)|)
    ensures Distinct(CutSides(AllCuts(reg, w.Read(u), numGp, |w.Read(u)|)))
    ensures forall s :: s in CutSides(AllCuts(reg, w.Read(u), numGp, |w.Read(u)|)) <==> w.Mine(u, s) && w.Cut(s)
  {
    ReadRectangular(w, u);
    var bs := w.Read(u);
    CutsFollowKeys(reg, bs, numGp, |bs|);
    CutKeysTaken(w, u, reg);
    var ks, ss := AllKeys(bs, |bs|), CutSides(AllCuts(reg, bs, numGp, |bs|));
    forall i | 0 <= i < |ks|
      ensures ss[i] == Side(ks[i].0, ks[i].1) && w.Mine(u, ss[i]) && w.Cut(ss[i])
    {
      assert ks[i] in ks;
      NamedCut(w, u, reg, ks[i]);
    }
    SidesOfKeysDiffer(reg, ks, ss);
    forall s | w.Mine(u, s) && w.Cut(s)
      ensures s in ss
    {
      CutFaceNamed(w, u, s);
      KeysAreNamed(w, u, |bs|, (s.elt, s.face));
      var i :| 0 <= i < |ks| && ks[i] == (s.elt, s.face);
      assert ss[i] == s;
    }
  }

  lemma SidesOfKeysDiffer(reg: map<nat, Table>, ks: seq<Key>, ss: seq<Side>)
    requires Takes(reg, ks) && |ss| == |ks| && forall i | 0 <= i < |ks| :: ss[i] == Side(ks[i].0, ks[i].1)
    ensures Distinct(ss)
  {
    forall i, j | 0 <= i < j < |ss|
      ensures ss[i] != ss[j]
    {
      assert ks[j] !in ks[..j] && ks[..j][i] == ks[i];
    }
  }

  function CutSides(cs: seq<CutBoundary>): (ss: seq<Side>)
    ensures |ss| == |cs|
  {
    seq(|cs|, i requires 0 <= i < |cs| => cs[i].side)
  }

  /** Interfaces of internal faces, each once. */
  ghost predicate Proper(w: Prepared, u: nat, fs: seq<Interface>) {
    && (forall i | 0 <= i < |fs| :: JoinsInside(w, u, fs[i]))
    && (forall i, j | 0 <= i < j < |fs| :: fs[i].inner != fs[j].inner)
  }

  ghost predicate JoinsInside(w: Prepared, u: nat, f: Interface) {
    (w.Kind(f.inner) == INTERNAL || w.Kind(f.inner) == LEVEE) && Joins(w, u, w.Kind(f.inner), f)
  }

  lemma ProperConcat(w: Prepared, u: nat, plain: seq<Interface>, levees: seq<Interface>)
    requires AllJoin(w, u, INTERNAL, plain) && AllJoin(w, u, LEVEE, levees)
    ensures Proper(w, u, plain + levees)
  {
    var fs := plain + levees;
    forall i | 0 <= i < |fs|
      ensures JoinsInside(w, u, fs[i]) && (w.Kind(fs[i].inner) == INTERNAL <==> i < |plain|)
    {
      assert fs[i] == if i < |plain| then plain[i] else levees[i - |plain|];
    }
  }

  ghost predicate TouchedBy(fs: seq<Interface>, k: nat, s: Side)
    requires k <= |fs|
  {
    exists i :: 0 <= i < k && Touches(fs[i], s)
  }

  predicate Touches(f: Interface, s: Side) {
    f.inner == s || f.outer == s
  }

  lemma {:induction false} InterfaceSidesMembers(fs: seq<Interface>, k: nat, s: Side)
    requires k <= |fs|
    ensures s in InterfaceSides(fs, k) <==> TouchedBy(fs, k, s)
  {
    if k > 0 {
      InterfaceSidesMembers(fs, k - 1, s);
      if Touches(fs[k - 1], s) {
        assert s in [fs[k - 1].inner, fs[k - 1].outer];
      }
    }
  }

  lemma InterfacesApart(w: Prepared, u: nat, f: Interface, g: Interface, s: Side)
    requires Simple(w.neighbor) && JoinsInside(w, u, f) && JoinsInside(w, u, g) && f.inner != g.inner && Touches(f, s)
    ensures !Touches(g, s)
  {
    FarTwice(w.neighbor, f.inner);
    FarTwice(w.neighbor, g.inner);
  }

  lemma {:induction false} InterfaceSidesDistinct(w: Prepared, u: nat, fs: seq<Interface>, k: nat)
    requires Simple(w.neighbor) && Proper(w, u, fs) && k <= |fs|
    ensures Distinct(InterfaceSides(fs, k))
  {
    if k > 0 {
      InterfaceSidesDistinct(w, u, fs, k - 1);
      var f := fs[k - 1];
      LastIsNew(w, u, fs, k, f.inner);
      LastIsNew(w, u, fs, k, f.outer);
      DistinctConcat(InterfaceSides(fs, k - 1), [f.inner, f.outer]);
    }
  }

  lemma LastIsNew(w: Prepared, u: nat, fs: seq<Interface>, k: nat, s: Side)
    requires Simple(w.neighbor) && Proper(w, u, fs) && 0 < k <= |fs| && Touches(fs[k - 1], s)
    ensures s !in InterfaceSides(fs, k - 1)
  {
    InterfaceSidesMembers(fs, k - 1, s);
    if i :| 0 <= i < k - 1 && Touches(fs[i], s) {
      InterfacesApart(w, u, fs[i], fs[k - 1], s);
    }
  }

  lemma InterfaceReached(w: Prepared, u: nat, reg: map<nat, Table>, plain: seq<Interface>, levees: seq<Interface>,
                         s: Side)
    requires w.Valid() && w.Filled(u, reg) && w.Mine(u, s) && IsInternal(w.Kind(s))
    requires plain == InterfacesOf(TableOf(reg, INTERNAL)) && levees == InterfacesOf(TableOf(reg, LEVEE))
    ensures TouchedBy(plain + levees, |plain + levees|, s)
  {
    KindCases(w, u, s);
    InterfacesComplete(w, u, reg, s);
    var part := if w.Kind(s) == INTERNAL then plain else levees;
    var i :| 0 <= i < |part| && (part[i].inner == s || part[i].outer == s);
    var j := if w.Kind(s) == INTERNAL then i else |plain| + i;
    assert Touches((plain + levees)[j], s);
  }

  lemma TouchedIsInternal(w: Prepared, u: nat, fs: seq<Interface>, s: Side)
    requires w.Valid() && Proper(w, u, fs) && TouchedBy(fs, |fs|, s)
    ensures w.Mine(u, s) && IsInternal(w.Kind(s))
  {
    var i :| 0 <= i < |fs| && Touches(fs[i], s);
    assert JoinsInside(w, u, fs[i]);
    OuterKind(w, u, fs[i]);
  }

  /** The interfaces of both internal types are proper and touch exactly the unit's uncut internal sides. */
  lemma InterfacesCover(w: Prepared, u: nat, reg: map<nat, Table>, fs: seq<Interface>)
    requires w.Valid() && w.Filled(u, reg)
    requires fs == InterfacesOf(TableOf(reg, INTERNAL)) + InterfacesOf(TableOf(reg, LEVEE))
    ensures Proper(w, u, fs) && Distinct(InterfaceSides(fs, |fs|))
    ensures forall s :: s in InterfaceSides(fs, |fs|) <==> w.Mine(u, s) && IsInternal(w.Kind(s))
  {
    InterfacesExact(w, u, reg, INTERNAL);
    InterfacesExact(w, u, reg, LEVEE);
    ProperConcat(w, u, InterfacesOf(TableOf(reg, INTERNAL)), InterfacesOf(TableOf(reg, LEVEE)));
    InterfaceSidesDistinct(w, u, fs, |fs|);
    forall s
      ensures s in InterfaceSides(fs, |fs|) <==> w.Mine(u, s) && IsInternal(w.Kind(s))
    {
      InterfaceSidesMembers(fs, |fs|, s);
      if TouchedBy(fs, |fs|, s) {
        TouchedIsInternal(w, u, fs, s);
      } else if w.Mine(u, s) && IsInternal(w.Kind(s)) {
        InterfaceReached(w, u, reg, InterfacesOf(TableOf(reg, INTERNAL)), InterfacesOf(TableOf(reg, LEVEE)), s);
      }
    }
  }

  lemma OuterKind(w: Prepared, u: nat, f: Interface)
    requires w.Valid() && JoinsInside(w, u, f)
    ensures w.Kind(f.outer) == w.Kind(f.inner)
  {
    ValidBasics(w, u, f.inner);
    KindCases(w, u, f.inner);
    ValidBasics(w, u, f.outer);
    KindCases(w, u, f.outer);
  }

  /** Three lists that take the faces by fate list every face once. */
  lemma FatesCover(w: Prepared, u: nat, a: seq<Side>, b: seq<Side>, c: seq<Side>)
    requires w.Valid() && Distinct(a) && Distinct(b) && Distinct(c)
    requires forall s :: s in a <==> w.Mine(u, s) && IsInternal(w.Kind(s))
    requires forall s :: s in b <==> w.Mine(u, s) && w.Kind(s) in w.kinds
    requires forall s :: s in c <==> w.Mine(u, s) && w.Cut(s)
    ensures Distinct(a + b + c) && forall s :: s in a + b + c <==> w.Mine(u, s)
    ensures forall s | s in b :: s in w.neighbor && w.neighbor[s] == DEFAULT_ID
  {
    forall s | w.Mine(u, s)
      ensures (s in a && s !in b && s !in c) || (s !in a && s in b && s !in c) || (s !in a && s !in b && s in c)
      ensures s in b ==> s in w.neighbor && w.neighbor[s] == DEFAULT_ID
    {
      KindCases(w, u, s);
    }
    DistinctConcat(a, b);
    DistinctConcat(a + b, c);
  }

  lemma SidesOfPart(p: Part, cuts: seq<CutBoundary>)
    requires |p.dbounds| == |cuts| && forall i | 0 <= i < |cuts| :: p.dbounds[i].side == cuts[i].side
    ensures SidesOf(p) == InterfaceSides(p.interfaces, |p.interfaces|) + p.boundaries + CutSides(cuts)
  {
  }

  /**
   Initialization of a unit of a prepared mesh leaves every face of every element in exactly one interface,
   boundary or distributed boundary: joined inside the unit, on the mesh boundary, or cut.
   */
  lemma EveryFaceHasOneFate(w: Prepared, u: nat, own: seq<nat>, reg: map<nat, Table>, numGp: nat -> nat, p: Part,
                            cuts: seq<CutBoundary>, sizes: seq<seq<nat>>)
    requires w.Valid() && w.OwnedBy(u, own) && p.elements == own
    requires Registered(Restrict(w.neighbor, own), Restrict(Marked(w), own), SidesOfElements(own), reg)
    requires Built(reg, w.Read(u), w.kinds, numGp, p.interfaces, p.boundaries, cuts, sizes)
    requires |p.dbounds| == |cuts| && forall i | 0 <= i < |cuts| :: p.dbounds[i].side == cuts[i].side
    ensures Distinct(SidesOf(p)) && forall s :: s in SidesOf(p) <==> w.Mine(u, s)
    ensures Proper(w, u, p.interfaces)
    ensures forall s | s in p.boundaries :: s in w.neighbor && w.neighbor[s] == DEFAULT_ID
    ensures forall i | 0 <= i < |cuts| :: w.Mine(u, cuts[i].side) && w.Cut(cuts[i].side)
  {
    RegistersAll(w, u, own, reg);
    InterfacesCover(w, u, reg, p.interfaces);
    AllBoundariesExact(w, u, reg, |w.kinds|);
    assert w.kinds[..|w.kinds|] == w.kinds;
    CutsExact(w, u, reg, numGp);
    var a, b, c := InterfaceSides(p.interfaces, |p.interfaces|), p.boundaries, CutSides(cuts);
    FatesCover(w, u, a, b, c);
    SidesOfPart(p, cuts);
    forall i | 0 <= i < |cuts|
      ensures w.Mine(u, cuts[i].side) && w.Cut(cuts[i].side)
    {
      assert c[i] in c;
    }
  }
}
