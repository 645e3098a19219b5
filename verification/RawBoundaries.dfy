/**
 From faces to objects: every element registers its faces by type, then interfaces, boundaries and distributed
 boundaries take theirs out of the tables until nothing is left.
 */
module RawBoundaries {
  import opened EdgeTypes
  import opened Sides
  import opened Partitioning
  import opened DistributedInterfaces
  import opened BufferOffsets

  type Key = (nat, nat)

  /** The registered faces of one type, in key order. */
  type Table = map<Key, Side>

  const LEVEE: nat := INTERNAL + 1

  /** Boundary types that need input data. */
  const TIDE: nat := 1
  const FLOW: nat := 2

  function TableOf(raw: map<nat, Table>, t: nat): Table {
    if t in raw then raw[t] else map[]
  }

  function Emptied(raw: map<nat, Table>, t: nat): map<nat, Table> {
    if t in raw then raw[t := map[]] else raw
  }

  // ----- key order -----

  predicate Before(a: Key, b: Key) {
    a.0 < b.0 || (a.0 == b.0 && a.1 < b.1)
  }

  function Swap(k: Key): Key {
    (k.1, k.0)
  }

  ghost predicate IsSmallest(keys: set<Key>, k: Key) {
    k in keys && forall x | x in keys :: x == k || Before(k, x)
  }

  lemma {:induction false} HasSmallest(keys: set<Key>)
    requires keys != {}
    ensures exists k :: IsSmallest(keys, k)
    decreases |keys|
  {
    var k :| k in keys;
    if keys == {k} {
      assert IsSmallest(keys, k);
    } else {
      var rest := keys - {k};
      HasSmallest(rest);
      var least :| IsSmallest(rest, least);
      var first := if Before(k, least) then k else least;
      forall x | x in keys
        ensures x == first || Before(first, x)
      {
        assert x == k || x in rest;
      }
      assert IsSmallest(keys, first);
    }
  }

  ghost function Smallest(keys: set<Key>): (k: Key)
    requires keys != {}
    ensures IsSmallest(keys, k)
  {
    HasSmallest(keys);
    var k :| IsSmallest(keys, k);
    k
  }

  ghost function Sorted(keys: set<Key>): seq<Key>
    decreases |keys|
  {
    if keys == {} then [] else
      var k := Smallest(keys);
      [k] + Sorted(keys - {k})
  }

  ghost predicate Ascending(ks: seq<Key>) {
    forall i, j | 0 <= i < j < |ks| :: Before(ks[i], ks[j])
  }

  lemma {:induction false} SortedExact(keys: set<Key>)
    ensures forall k :: k in Sorted(keys) <==> k in keys
    ensures Ascending(Sorted(keys))
    decreases |keys|
  {
    if keys != {} {
      SortedExact(keys - {Smallest(keys)});
    }
  }

  /** The keys at which an interface is made: when they are reached, their mirror image is still there. */
  ghost function PairKeys(keys: set<Key>): seq<Key>
    decreases |keys|
  {
    if keys == {} then [] else
      var k := Smallest(keys);
      (if Swap(k) in keys then [k] else []) + PairKeys(keys - {k})
  }

  /** Those are the mirrored keys whose first element is the lower one. */
  lemma {:induction false} PairKeysExact(keys: set<Key>)
    ensures forall k :: k in PairKeys(keys) <==> k in keys && Swap(k) in keys && k.0 <= k.1
    ensures Ascending(PairKeys(keys))
    decreases |keys|
  {
    if keys != {} {
      var k := Smallest(keys);
      PairKeysExact(keys - {k});
      assert Swap(k) in keys ==> k == Swap(k) || Before(k, Swap(k));
      forall x
        ensures x in PairKeys(keys) <==> x in keys && Swap(x) in keys && x.0 <= x.1
      {
        if Swap(x) == k && x in keys {
          assert x == k || Before(k, x);
        }
      }
    }
  }

  // ----- registering -----

  function KeyFor(neighbor: map<Side, nat>, btype: map<Side, nat>, s: Side): Key
    requires s in neighbor && s in btype
  {
    if IsInternal(btype[s]) then (s.elt, neighbor[s]) else (s.elt, s.face)
  }

  ghost predicate SameSlot(neighbor: map<Side, nat>, btype: map<Side, nat>, s: Side, t: nat, k: Key) {
    s in neighbor && s in btype && btype[s] == t && KeyFor(neighbor, btype, s) == k
  }

  /** No lower face of the element claims the same key of the same table. */
  ghost predicate Survives(neighbor: map<Side, nat>, btype: map<Side, nat>, s: Side)
    requires s in neighbor && s in btype
  {
    forall f: nat | f < s.face :: !SameSlot(neighbor, btype, Side(s.elt, f), btype[s], KeyFor(neighbor, btype, s))
  }

  predicate Entry(raw: map<nat, Table>, t: nat, k: Key, s: Side) {
    t in raw && k in raw[t] && raw[t][k] == s
  }

  /** The tables hold the surviving faces of `done`, each at its key. */
  ghost predicate Registered(neighbor: map<Side, nat>, btype: map<Side, nat>, done: set<Side>, raw: map<nat, Table>) {
    forall t, k, s :: Entry(raw, t, k, s)
                  <==> s in done && SameSlot(neighbor, btype, s, t, k) && Survives(neighbor, btype, s)
  }

  /** emplace: a key already present keeps its face. */
  function Emplaced(raw: map<nat, Table>, t: nat, k: Key, s: Side): map<nat, Table> {
    if k in TableOf(raw, t) then raw else raw[t := TableOf(raw, t)[k := s]]
  }

  lemma EmplaceNext(neighbor: map<Side, nat>, btype: map<Side, nat>, done: set<Side>, raw: map<nat, Table>, s: Side)
    requires Registered(neighbor, btype, done, raw) && s !in done && s.face < 3 && s in neighbor && s in btype
    requires forall f: nat | f < 3 :: Side(s.elt, f) in done <==> f < s.face
    requires forall f: nat | f < 3 :: Side(s.elt, f) in neighbor && Side(s.elt, f) in btype
    requires forall x | x in done :: x.face < 3
    ensures Registered(neighbor, btype, done + {s}, Emplaced(raw, btype[s], KeyFor(neighbor, btype, s), s))
  {
    var t, k := btype[s], KeyFor(neighbor, btype, s);
    if k in TableOf(raw, t) {
      var x := raw[t][k];
      assert Entry(raw, t, k, x);
      assert x == Side(s.elt, x.face) && SameSlot(neighbor, btype, Side(s.elt, x.face), t, k);
      assert !Survives(neighbor, btype, s);
    } else {
      forall f: nat | f < s.face
        ensures !SameSlot(neighbor, btype, Side(s.elt, f), t, k)
      {
        var zero, low := Side(s.elt, 0), Side(s.elt, f);
        assert !Entry(raw, t, k, zero) && !Entry(raw, t, k, low);
        assert SameSlot(neighbor, btype, zero, t, k) ==> Survives(neighbor, btype, zero);
      }
    }
    RegisteredNext(neighbor, btype, done, raw, s);
  }

  /** Given that presence of the key decides survival. */
  lemma RegisteredNext(neighbor: map<Side, nat>, btype: map<Side, nat>, done: set<Side>, raw: map<nat, Table>, s: Side)
    requires Registered(neighbor, btype, done, raw) && s !in done && s in neighbor && s in btype
    requires KeyFor(neighbor, btype, s) in TableOf(raw, btype[s]) <==> !Survives(neighbor, btype, s)
    ensures Registered(neighbor, btype, done + {s}, Emplaced(raw, btype[s], KeyFor(neighbor, btype, s), s))
  {
    var t, k := btype[s], KeyFor(neighbor, btype, s);
    var raw' := Emplaced(raw, t, k, s);
    forall t', k', x
      ensures Entry(raw', t', k', x)
         <==> x in done + {s} && SameSlot(neighbor, btype, x, t', k') && Survives(neighbor, btype, x)
    {
      assert Entry(raw, t', k', x)
             <==> x in done && SameSlot(neighbor, btype, x, t', k') && Survives(neighbor, btype, x);
      assert x != s ==> (Entry(raw', t', k', x) <==> Entry(raw, t', k', x));
    }
  }

  ghost function FirstFaces(e: nat, k: nat): set<Side> {
    set f: nat | f < k :: Side(e, f)
  }

  ghost function SidesOfElements(elements: seq<nat>): set<Side> {
    set e, f: nat | e in elements && f < 3 :: Side(e, f)
  }

  // ----- taking out -----

  /** Whether the input holds data for a levee, a distributed levee, a tide or a flow face. */
  datatype Input = Input(levee: Interface -> bool, cutLevee: Side -> bool, tide: Side -> bool, flow: Side -> bool)

  datatype Outcome = Done | NoLeveeData | NoBoundaryData | NotFound(key: Key) | Unprocessed(kind: nat)

  function InterfaceAt(m: Table, k: Key): Interface
    requires k in m && Swap(k) in m
  {
    Interface(m[k], m[Swap(k)])
  }

  /** The interfaces a table gives, in key order: one wherever the mirrored key is still there. */
  ghost function InterfacesOf(m: Table): seq<Interface>
    decreases |m|
  {
    if m == map[] then [] else
      var k := Smallest(m.Keys);
      (if Swap(k) in m then [InterfaceAt(m, k)] else []) + InterfacesOf(m - {k})
  }

  /** The boundaries a table gives, in key order. */
  ghost function BoundariesOf(m: Table): seq<Side>
    decreases |m|
  {
    if m == map[] then [] else
      var k := Smallest(m.Keys);
      [m[k]] + BoundariesOf(m - {k})
  }

  lemma {:induction false} InterfacesFollowKeys(m: Table)
    ensures |InterfacesOf(m)| == |PairKeys(m.Keys)|
    ensures forall i | 0 <= i < |InterfacesOf(m)| ::
              var k := PairKeys(m.Keys)[i];
              k in m && Swap(k) in m && k.0 <= k.1 && InterfacesOf(m)[i] == InterfaceAt(m, k)
    decreases |m|
  {
    if m != map[] {
      var k := Smallest(m.Keys);
      InterfacesFollowKeys(m - {k});
      assert (m - {k}).Keys == m.Keys - {k};
      assert Swap(k) in m ==> k == Swap(k) || Before(k, Swap(k));
    }
  }

  lemma {:induction false} BoundariesFollowKeys(m: Table)
    ensures |BoundariesOf(m)| == |Sorted(m.Keys)|
    ensures forall i | 0 <= i < |BoundariesOf(m)| ::
              Sorted(m.Keys)[i] in m && BoundariesOf(m)[i] == m[Sorted(m.Keys)[i]]
    decreases |m|
  {
    if m != map[] {
      var k := Smallest(m.Keys);
      BoundariesFollowKeys(m - {k});
      assert (m - {k}).Keys == m.Keys - {k};
    }
  }

  ghost predicate AllLeveesKnown(fs: seq<Interface>, kind: nat, input: Input) {
    kind == LEVEE ==> forall f | f in fs :: input.levee(f)
  }

  ghost predicate AllHaveData(ss: seq<Side>, kind: nat, input: Input) {
    forall s | s in ss :: HasData(input, kind, s)
  }

  predicate HasData(input: Input, kind: nat, s: Side) {
    (kind == TIDE ==> input.tide(s)) && (kind == FLOW ==> input.flow(s))
  }

  method SmallestKey(m: Table) returns (k: Key)
    requires m != map[]
    ensures k == Smallest(m.Keys)
  {
    HasSmallest(m.Keys);
    k :| k in m && forall x | x in m :: x == k || Before(k, x);
    assert IsSmallest(m.Keys, k);
  }

  // ----- distributed boundaries -----

  const DISTRIBUTED_LEVEE: nat := DISTRIBUTED + 1

  /** A cut face as built: the unit beyond, and the face's slot in each of that neighbour's buffers. */
  datatype CutBoundary = CutBoundary(side: Side, locality: nat, submesh: nat, offsets: seq<nat>)

  predicate FoundIn(raw: map<nat, Table>, k: Key) {
    k in TableOf(raw, DISTRIBUTED) || k in TableOf(raw, DISTRIBUTED_LEVEE)
  }

  function FaceAt(raw: map<nat, Table>, k: Key): Side
    requires FoundIn(raw, k)
  {
    if k in TableOf(raw, DISTRIBUTED) then raw[DISTRIBUTED][k] else raw[DISTRIBUTED_LEVEE][k]
  }

  /** A face is in at most one of the two tables. */
  ghost predicate OneTable(raw: map<nat, Table>) {
    forall k | k in TableOf(raw, DISTRIBUTED) :: k !in TableOf(raw, DISTRIBUTED_LEVEE)
  }

  predicate IsCut(t: nat) {
    t == DISTRIBUTED || t == DISTRIBUTED_LEVEE
  }

  /** raw is raw0 without the cut faces at ks. */
  ghost predicate Without(raw0: map<nat, Table>, ks: seq<Key>, raw: map<nat, Table>) {
    forall t, k, s :: Entry(raw, t, k, s) <==> Entry(raw0, t, k, s) && !(IsCut(t) && k in ks)
  }

  /** Every key can be taken out, one after the other. */
  ghost predicate Takes(raw: map<nat, Table>, ks: seq<Key>) {
    forall i | 0 <= i < |ks| :: FoundIn(raw, ks[i]) && ks[i] !in ks[..i]
  }

  /** A distributed levee face needs the data of its levee. */
  predicate CutKnown(raw: map<nat, Table>, input: Input, k: Key) {
    k !in TableOf(raw, DISTRIBUTED) && k in TableOf(raw, DISTRIBUTED_LEVEE) ==>
      input.cutLevee(raw[DISTRIBUTED_LEVEE][k])
  }

  /** Every key can be taken out, and every levee among them has its data. */
  ghost predicate Buildable(raw: map<nat, Table>, input: Input, ks: seq<Key>) {
    Takes(raw, ks) && forall k | k in ks :: CutKnown(raw, input, k)
  }

  lemma BuildableOneMore(raw: map<nat, Table>, input: Input, ks: seq<Key>, k: Key)
    ensures Buildable(raw, input, ks + [k])
       <==> Buildable(raw, input, ks) && FoundIn(raw, k) && k !in ks && CutKnown(raw, input, k)
  {
    TakesOneMore(raw, ks, k);
    assert k in ks + [k];
  }

  lemma BuildablePrefix(raw: map<nat, Table>, input: Input, ks: seq<Key>, more: seq<Key>)
    requires Buildable(raw, input, ks + more)
    ensures Buildable(raw, input, ks)
  {
    TakesPrefix(raw, ks, more);
    assert forall k | k in ks :: k in ks + more;
  }

  lemma TakesOneMore(raw: map<nat, Table>, ks: seq<Key>, k: Key)
    ensures Takes(raw, ks + [k]) <==> Takes(raw, ks) && FoundIn(raw, k) && k !in ks
  {
    var more := ks + [k];
    assert more[..|ks|] == ks;
    assert forall i | 0 <= i < |ks| :: more[i] == ks[i] && more[..i] == ks[..i];
    assert more[|ks|] == k;
  }

  lemma TakesPrefix(raw: map<nat, Table>, ks: seq<Key>, more: seq<Key>)
    requires Takes(raw, ks + more)
    ensures Takes(raw, ks)
  {
    assert forall i | 0 <= i < |ks| :: (ks + more)[i] == ks[i] && (ks + more)[..i] == ks[..i];
  }

  lemma SameTables(raw0: map<nat, Table>, ks: seq<Key>, raw: map<nat, Table>, t: nat, k: Key)
    requires Without(raw0, ks, raw)
    ensures k in TableOf(raw, t) <==> k in TableOf(raw0, t) && !(IsCut(t) && k in ks)
    ensures k in TableOf(raw, t) ==> TableOf(raw, t)[k] == TableOf(raw0, t)[k]
  {
    if k in TableOf(raw, t) {
      assert Entry(raw, t, k, raw[t][k]);
    }
    if k in TableOf(raw0, t) {
      assert Entry(raw0, t, k, raw0[t][k]) && (!(IsCut(t) && k in ks) ==> Entry(raw, t, k, raw0[t][k]));
    }
  }

  lemma StillFound(raw0: map<nat, Table>, ks: seq<Key>, raw: map<nat, Table>, k: Key)
    requires Without(raw0, ks, raw)
    ensures FoundIn(raw, k) <==> FoundIn(raw0, k) && k !in ks
    ensures FoundIn(raw, k) ==> FaceAt(raw, k) == FaceAt(raw0, k)
  {
    SameTables(raw0, ks, raw, DISTRIBUTED, k);
    SameTables(raw0, ks, raw, DISTRIBUTED_LEVEE, k);
  }

  lemma StillKnown(raw0: map<nat, Table>, input: Input, ks: seq<Key>, raw: map<nat, Table>, k: Key)
    requires Without(raw0, ks, raw)
    ensures k !in ks ==> (CutKnown(raw, input, k) <==> CutKnown(raw0, input, k))
  {
    SameTables(raw0, ks, raw, DISTRIBUTED, k);
    SameTables(raw0, ks, raw, DISTRIBUTED_LEVEE, k);
  }

  lemma StillOneTable(raw0: map<nat, Table>, ks: seq<Key>, raw: map<nat, Table>)
    requires Without(raw0, ks, raw) && OneTable(raw0)
    ensures OneTable(raw)
  {
    forall k | k in TableOf(raw, DISTRIBUTED)
      ensures k !in TableOf(raw, DISTRIBUTED_LEVEE)
    {
      SameTables(raw0, ks, raw, DISTRIBUTED, k);
      SameTables(raw0, ks, raw, DISTRIBUTED_LEVEE, k);
    }
  }

  lemma WithoutOneMore(raw0: map<nat, Table>, ks: seq<Key>, raw: map<nat, Table>, k: Key, raw': map<nat, Table>)
    requires Without(raw0, ks, raw) && Without(raw, [k], raw')
    ensures Without(raw0, ks + [k], raw')
  {
  }

  /** Gauss points of the faces of one rank boundary. */
  function GaussPoints(b: RankBoundary, numGp: nat -> nat): (ngps: seq<nat>)
    ensures |ngps| == |b.p|
  {
    seq(|b.p|, i requires 0 <= i < |b.p| => numGp(2 * b.p[i] + 1))
  }

  function FaceKey(b: RankBoundary, i: nat): Key
    requires i < |b.elementsIn| && i < |b.boundIdsIn|
  {
    (b.elementsIn[i], b.boundIdsIn[i])
  }

  function FaceKeys(b: RankBoundary, n: nat): (ks: seq<Key>)
    requires n <= |b.elementsIn| && n <= |b.boundIdsIn|
    ensures |ks| == n
  {
    seq(n, i requires 0 <= i < n => FaceKey(b, i))
  }

  ghost predicate AllFound(raw: map<nat, Table>, b: RankBoundary) {
    Rectangular(b) && FirstFound(raw, b, |b.p|)
  }

  ghost predicate FirstFound(raw: map<nat, Table>, b: RankBoundary, n: nat)
    requires Rectangular(b) && n <= |b.p|
  {
    forall i | 0 <= i < n :: FoundIn(raw, FaceKey(b, i))
  }

  /** The first n faces of a rank boundary have been taken, after the prior ones. */
  ghost predicate FacesTaken(raw0: map<nat, Table>, input: Input, prior: seq<Key>, b: RankBoundary, n: nat,
                             raw: map<nat, Table>)
    requires Rectangular(b) && n <= |b.p|
  {
    && Buildable(raw0, input, prior + FaceKeys(b, n)) && Without(raw0, prior + FaceKeys(b, n), raw)
    && FirstFound(raw0, b, n)
  }

  /** One more face can be taken, or the rank boundary cannot be taken at all. */
  lemma FaceNext(raw0: map<nat, Table>, input: Input, prior: seq<Key>, b: RankBoundary, n: nat)
    requires Rectangular(b) && n < |b.p| && Buildable(raw0, input, prior + FaceKeys(b, n))
    ensures var key, ks := FaceKey(b, n), prior + FaceKeys(b, n);
            && prior + FaceKeys(b, n + 1) == ks + [key]
            && (Buildable(raw0, input, ks + [key]) <==> FoundIn(raw0, key) && key !in ks && CutKnown(raw0, input, key))
            && (Buildable(raw0, input, prior + FaceKeys(b, |b.p|)) ==> Buildable(raw0, input, ks + [key]))
  {
    var key, ks, all := FaceKey(b, n), prior + FaceKeys(b, n), FaceKeys(b, |b.p|);
    assert prior + FaceKeys(b, n + 1) == ks + [key];
    BuildableOneMore(raw0, input, ks, key);
    assert prior + all == (ks + [key]) + all[n + 1..];
    if Buildable(raw0, input, prior + all) {
      BuildablePrefix(raw0, input, ks + [key], all[n + 1..]);
    }
  }

  ghost function CutAt(raw: map<nat, Table>, b: RankBoundary, numGp: nat -> nat, i: nat): CutBoundary
    requires Rectangular(b) && i < |b.p| && FoundIn(raw, FaceKey(b, i))
  {
    CutBoundary(FaceAt(raw, FaceKey(b, i)), b.localityEx, b.submeshEx, OffsetsAt(GaussPoints(b, numGp), i))
  }

  /** The cut faces built for the first n entries of a rank boundary. */
  ghost function CutsOf(raw: map<nat, Table>, b: RankBoundary, numGp: nat -> nat, n: nat): (cs: seq<CutBoundary>)
    requires Rectangular(b) && n <= |b.p| && FirstFound(raw, b, n)
    ensures |cs| == n
  {
    seq(n, i requires 0 <= i < n => CutAt(raw, b, numGp, i))
  }

  ghost predicate AllRectangular(bs: seq<RankBoundary>) {
    forall b | b in bs :: Rectangular(b)
  }

  /** All faces the metadata names, neighbour after neighbour. */
  function AllKeys(bs: seq<RankBoundary>, n: nat): seq<Key>
    requires n <= |bs| && forall b | b in bs :: |b.elementsIn| == |b.boundIdsIn|
  {
    if n == 0 then [] else
      assert bs[n - 1] in bs;
      AllKeys(bs, n - 1) + FaceKeys(bs[n - 1], |bs[n - 1].elementsIn|)
  }

  lemma {:induction false} AllKeysPrefix(bs: seq<RankBoundary>, i: nat, n: nat)
    requires i <= n <= |bs| && AllRectangular(bs)
    ensures |AllKeys(bs, i)| <= |AllKeys(bs, n)|
    ensures AllKeys(bs, n) == AllKeys(bs, i) + AllKeys(bs, n)[|AllKeys(bs, i)|..]
    decreases n
  {
    if i < n {
      AllKeysPrefix(bs, i, n - 1);
      assert bs[n - 1] in bs;
    }
  }

  ghost predicate AllCutsFound(raw: map<nat, Table>, bs: seq<RankBoundary>, n: nat)
    requires n <= |bs|
  {
    forall i | 0 <= i < n :: AllFound(raw, bs[i])
  }

  ghost function AllCuts(raw: map<nat, Table>, bs: seq<RankBoundary>, numGp: nat -> nat, n: nat): seq<CutBoundary>
    requires n <= |bs| && AllCutsFound(raw, bs, n)
  {
    if n == 0 then [] else
      assert AllFound(raw, bs[n - 1]);
      AllCuts(raw, bs, numGp, n - 1) + CutsOf(raw, bs[n - 1], numGp, |bs[n - 1].p|)
  }

  /** The rank boundaries before n have been taken. */
  ghost predicate RanksTaken(raw0: map<nat, Table>, input: Input, bs: seq<RankBoundary>, n: nat, raw: map<nat, Table>)
    requires n <= |bs| && AllRectangular(bs)
  {
    Buildable(raw0, input, AllKeys(bs, n)) && Without(raw0, AllKeys(bs, n), raw) && AllCutsFound(raw0, bs, n)
  }

  lemma RankNext(raw0: map<nat, Table>, input: Input, bs: seq<RankBoundary>, n: nat)
    requires n < |bs| && AllRectangular(bs)
    ensures Rectangular(bs[n]) && AllKeys(bs, n + 1) == AllKeys(bs, n) + FaceKeys(bs[n], |bs[n].p|)
    ensures Buildable(raw0, input, AllKeys(bs, |bs|)) ==> Buildable(raw0, input, AllKeys(bs, n + 1))
  {
    assert bs[n] in bs;
    if Buildable(raw0, input, AllKeys(bs, |bs|)) {
      AllKeysPrefix(bs, n + 1, |bs|);
      BuildablePrefix(raw0, input, AllKeys(bs, n + 1), AllKeys(bs, |bs|)[|AllKeys(bs, n + 1)|..]);
    }
  }

  /** Both buffers for a neighbour, one length a quantity, end right behind the last slot. */
  ghost predicate Sized(b: RankBoundary, numGp: nat -> nat, size: seq<nat>) {
    size == OffsetsAt(GaussPoints(b, numGp), |b.p|)
  }

  /** Boundary types, each at most once. */
  ghost predicate Kinds(kinds: seq<nat>) {
    (forall k | k in kinds :: IsBoundary(k)) && (forall i, j | 0 <= i < j < |kinds| :: kinds[i] != kinds[j])
  }

  ghost function AllBoundaries(raw: map<nat, Table>, kinds: seq<nat>, n: nat): seq<Side>
    requires n <= |kinds|
  {
    if n == 0 then [] else AllBoundaries(raw, kinds, n - 1) + BoundariesOf(TableOf(raw, kinds[n - 1]))
  }

  function EmptiedAll(raw: map<nat, Table>, kinds: seq<nat>, n: nat): map<nat, Table>
    requires n <= |kinds|
  {
    if n == 0 then raw else Emptied(EmptiedAll(raw, kinds, n - 1), kinds[n - 1])
  }

  lemma {:induction false} EmptiedAllOther(raw: map<nat, Table>, kinds: seq<nat>, n: nat, t: nat)
    requires n <= |kinds|
    ensures EmptiedAll(raw, kinds, n).Keys == raw.Keys
    ensures TableOf(EmptiedAll(raw, kinds, n), t) == if t in kinds[..n] then map[] else TableOf(raw, t)
  {
    if n > 0 {
      EmptiedAllOther(raw, kinds, n - 1, t);
      assert kinds[..n] == kinds[..n - 1] + [kinds[n - 1]];
    }
  }

  /** The tables when only the cut faces remain to be taken. */
  function AfterPairing(reg: map<nat, Table>): map<nat, Table> {
    Emptied(Emptied(reg, INTERNAL), LEVEE)
  }

  /** Every levee, tide and flow face that is not cut has its data. */
  ghost predicate HasAllData(reg: map<nat, Table>, kinds: seq<nat>, input: Input) {
    && AllLeveesKnown(InterfacesOf(TableOf(reg, LEVEE)), LEVEE, input)
    && (forall i | 0 <= i < |kinds| :: AllHaveData(BoundariesOf(TableOf(reg, kinds[i])), kinds[i], input))
  }

  /** Every cut levee that the metadata names has its data. */
  ghost predicate HasCutData(reg: map<nat, Table>, bs: seq<RankBoundary>, input: Input)
    requires AllRectangular(bs)
  {
    forall k | k in AllKeys(bs, |bs|) :: CutKnown(reg, input, k)
  }

  /** The metadata names each cut face once, and every registered face has a place to go. */
  ghost predicate CutsMatch(reg: map<nat, Table>, bs: seq<RankBoundary>, kinds: seq<nat>)
    requires AllRectangular(bs)
  {
    && Takes(reg, AllKeys(bs, |bs|))
    && (forall t, k, s | Entry(reg, t, k, s) :: Processed(kinds, AllKeys(bs, |bs|), t, k))
  }

  /** The objects that the registered faces become, and the lengths of the buffers for each neighbour. */
  ghost predicate Built(reg: map<nat, Table>, bs: seq<RankBoundary>, kinds: seq<nat>, numGp: nat -> nat,
                        interfaces: seq<Interface>, boundaries: seq<Side>, cuts: seq<CutBoundary>,
                            sizes: seq<seq<nat>>) {
    && interfaces == InterfacesOf(TableOf(reg, INTERNAL)) + InterfacesOf(TableOf(reg, LEVEE))
    && boundaries == AllBoundaries(reg, kinds, |kinds|)
    && AllCutsFound(reg, bs, |bs|) && cuts == AllCuts(reg, bs, numGp, |bs|)
    && |sizes| == |bs| && forall i | 0 <= i < |bs| :: Sized(bs[i], numGp, sizes[i])
  }

  predicate Processed(kinds: seq<nat>, ks: seq<Key>, t: nat, k: Key) {
    t == INTERNAL || t == LEVEE || t in kinds || (IsCut(t) && k in ks)
  }

  function Drained(reg: map<nat, Table>, kinds: seq<nat>): map<nat, Table> {
    EmptiedAll(AfterPairing(reg), kinds, |kinds|)
  }

  lemma DrainedTable(reg: map<nat, Table>, kinds: seq<nat>, t: nat)
    ensures TableOf(Drained(reg, kinds), t) == if t == INTERNAL || t == LEVEE || t in kinds then map[]
            else TableOf(reg, t)
  {
    EmptiedAllOther(AfterPairing(reg), kinds, |kinds|, t);
  }

  /** Pairing empties no boundary table. */
  lemma {:induction false} BoundariesUntouched(reg: map<nat, Table>, kinds: seq<nat>, n: nat)
    requires n <= |kinds| && Kinds(kinds)
    ensures AllBoundaries(AfterPairing(reg), kinds, n) == AllBoundaries(reg, kinds, n)
    ensures forall i | 0 <= i < n :: TableOf(AfterPairing(reg), kinds[i]) == TableOf(reg, kinds[i])
  {
    if n > 0 {
      BoundariesUntouched(reg, kinds, n - 1);
      assert kinds[n - 1] in kinds;
    }
  }

  ghost predicate SameCutTables(raw: map<nat, Table>, raw': map<nat, Table>) {
    && TableOf(raw, DISTRIBUTED) == TableOf(raw', DISTRIBUTED)
    && TableOf(raw, DISTRIBUTED_LEVEE) == TableOf(raw', DISTRIBUTED_LEVEE)
  }

  lemma SameCuts(raw: map<nat, Table>, raw': map<nat, Table>, b: RankBoundary, numGp: nat -> nat)
    requires SameCutTables(raw, raw') && AllFound(raw, b)
    ensures AllFound(raw', b) && CutsOf(raw, b, numGp, |b.p|) == CutsOf(raw', b, numGp, |b.p|)
  {
    assert forall i | 0 <= i < |b.p| :: FoundIn(raw, FaceKey(b, i));
  }

  lemma {:induction false} SameAllCuts(raw: map<nat, Table>, raw': map<nat, Table>, bs: seq<RankBoundary>,
                                       numGp: nat -> nat, n: nat)
    requires SameCutTables(raw, raw') && n <= |bs| && AllCutsFound(raw, bs, n)
    ensures AllCutsFound(raw', bs, n) && AllCuts(raw, bs, numGp, n) == AllCuts(raw', bs, numGp, n)
  {
    if n > 0 {
      SameAllCuts(raw, raw', bs, numGp, n - 1);
      assert AllFound(raw, bs[n - 1]);
      SameCuts(raw, raw', bs[n - 1], numGp);
    }
  }

  lemma SameBuildable(raw: map<nat, Table>, raw': map<nat, Table>, input: Input, ks: seq<Key>)
    requires SameCutTables(raw, raw')
    ensures Buildable(raw, input, ks) <==> Buildable(raw', input, ks)
  {
    assert forall k :: FoundIn(raw, k) <==> FoundIn(raw', k);
    assert forall k :: CutKnown(raw, input, k) <==> CutKnown(raw', input, k);
  }

  lemma RegisteredOneTable(neighbor: map<Side, nat>, btype: map<Side, nat>, done: set<Side>, reg: map<nat, Table>)
    requires Registered(neighbor, btype, done, reg)
    ensures OneTable(reg)
  {
    forall k | k in TableOf(reg, DISTRIBUTED)
      ensures k !in TableOf(reg, DISTRIBUTED_LEVEE)
    {
      assert Entry(reg, DISTRIBUTED, k, reg[DISTRIBUTED][k]);
      if k in TableOf(reg, DISTRIBUTED_LEVEE) {
        assert Entry(reg, DISTRIBUTED_LEVEE, k, reg[DISTRIBUTED_LEVEE][k]);
      }
    }
  }

  /** The earlier stages leave the cut faces alone. */
  lemma StagesKeepCuts(reg: map<nat, Table>, kinds: seq<nat>)
    requires OneTable(reg) && Kinds(kinds)
    ensures OneTable(Drained(reg, kinds)) && SameCutTables(Drained(reg, kinds), reg)
  {
    DrainedTable(reg, kinds, DISTRIBUTED);
    DrainedTable(reg, kinds, DISTRIBUTED_LEVEE);
  }

  lemma DrainedEntry(reg: map<nat, Table>, kinds: seq<nat>, t: nat, k: Key, s: Side)
    ensures Entry(Drained(reg, kinds), t, k, s) <==> Entry(reg, t, k, s) && t != INTERNAL && t != LEVEE && t !in kinds
  {
    DrainedTable(reg, kinds, t);
    EmptiedAllOther(AfterPairing(reg), kinds, |kinds|, t);
  }

  /** The last check finds a face exactly when some registered face has no place to go. */
  lemma LeftoverExact(reg: map<nat, Table>, kinds: seq<nat>, ks: seq<Key>, raw: map<nat, Table>)
    requires Without(Drained(reg, kinds), ks, raw)
    ensures (forall t | t in raw :: raw[t] == map[]) <==> forall t, k, s | Entry(reg, t, k, s) ::
              Processed(kinds, ks, t, k)
  {
    forall t, k, s
      ensures Entry(raw, t, k, s) <==> Entry(reg, t, k, s) && !Processed(kinds, ks, t, k)
    {
      DrainedEntry(reg, kinds, t, k, s);
    }
    if forall t, k, s | Entry(reg, t, k, s) :: Processed(kinds, ks, t, k) {
      forall t | t in raw
        ensures raw[t] == map[]
      {
        assert forall k | k in raw[t] :: Entry(raw, t, k, raw[t][k]);
      }
    } else {
      var t, k, s :| Entry(reg, t, k, s) && !Processed(kinds, ks, t, k);
      assert Entry(raw, t, k, s);
    }
  }

  lemma NextPair(rest: Table, k: Key, made: seq<Interface>)
    requires rest != map[] && k == Smallest(rest.Keys) && Swap(k) in rest
    ensures var f := Interface(rest[k], rest[Swap(k)]);
            && f in made + InterfacesOf(rest)
            && made + InterfacesOf(rest) == made + [f] + InterfacesOf(rest - {k})
  {
    assert InterfacesOf(rest)[0] == Interface(rest[k], rest[Swap(k)]);
  }

  /** Walks through the table of an internal type, erasing every face it has visited. */
  method PairFaces(table: Table, kind: nat, input: Input) returns (ok: bool, made: seq<Interface>)
    ensures ok <==> AllLeveesKnown(InterfacesOf(table), kind, input)
    ensures ok ==> made == InterfacesOf(table)
  {
    made := [];
    var rest := table;
    while rest != map[]
      invariant made + InterfacesOf(rest) == InterfacesOf(table)
      invariant AllLeveesKnown(made, kind, input)
      decreases |rest|
    {
      var k := SmallestKey(rest);
      if Swap(k) in rest {
        var f := Interface(rest[k], rest[Swap(k)]);
        NextPair(rest, k, made);
        if kind == LEVEE && !input.levee(f) {
          return false, [];
        }
        made := made + [f];
      }
      rest := rest - {k};
    }
    ok := true;
  }

  method DrainTable(table: Table, kind: nat, input: Input) returns (ok: bool, made: seq<Side>)
    ensures ok <==> AllHaveData(BoundariesOf(table), kind, input)
    ensures ok ==> made == BoundariesOf(table)
  {
    made := [];
    var rest := table;
    while rest != map[]
      invariant made + BoundariesOf(rest) == BoundariesOf(table)
      invariant AllHaveData(made, kind, input)
      decreases |rest|
    {
      var k := SmallestKey(rest);
      assert BoundariesOf(rest)[0] == rest[k];
      if !HasData(input, kind, rest[k]) {
        assert rest[k] in made + BoundariesOf(rest);
        return false, [];
      }
      made := made + [rest[k]];
      rest := rest - {k};
    }
    ok := true;
  }

  class MeshBuilder {
    var raw: map<nat, Table>
    var interfaces: seq<Interface>
    var boundaries: seq<Side>
    var cuts: seq<CutBoundary>

    constructor ()
      ensures raw == map[] && interfaces == [] && boundaries == [] && cuts == []
    {
      raw, interfaces, boundaries, cuts := map[], [], [], [];
    }

    /** One element registers its three faces. */
    method CreateRawBoundaries(neighbor: map<Side, nat>, btype: map<Side, nat>, e: nat, ghost done: set<Side>)
      requires forall f: nat | f < 3 :: Side(e, f) in neighbor && Side(e, f) in btype && Side(e, f) !in done
      requires Registered(neighbor, btype, done, raw) && forall s | s in done :: s.face < 3
      modifies `raw
      ensures Registered(neighbor, btype, done + FirstFaces(e, 3), raw)
    {
      assert done + FirstFaces(e, 0) == done;
      for k := 0 to 3
        invariant Registered(neighbor, btype, done + FirstFaces(e, k), raw)
      {
        var s := Side(e, k);
        EmplaceNext(neighbor, btype, done + FirstFaces(e, k), raw, s);
        assert done + FirstFaces(e, k) + {s} == done + FirstFaces(e, k + 1);
        raw := Emplaced(raw, btype[s], KeyFor(neighbor, btype, s), s);
      }
    }

    method RegisterAll(neighbor: map<Side, nat>, btype: map<Side, nat>, elements: seq<nat>)
      requires FullTable(elements, neighbor) && FullTable(elements, btype)
      requires forall i, j | 0 <= i < j < |elements| :: elements[i] != elements[j]
      modifies `raw
      ensures Registered(neighbor, btype, SidesOfElements(elements), raw)
    {
      raw := map[];
      for i := 0 to |elements|
        invariant Registered(neighbor, btype, SidesOfElements(elements[..i]), raw)
      {
        CreateRawBoundaries(neighbor, btype, elements[i], SidesOfElements(elements[..i]));
        assert elements[..i + 1] == elements[..i] + [elements[i]];
        assert SidesOfElements(elements[..i + 1]) == SidesOfElements(elements[..i]) + FirstFaces(elements[i], 3);
      }
      assert elements[..|elements|] == elements;
    }

    /** Empties the table of one internal type; faces whose mirror image is missing are dropped. */
    method CreateInterfaces(kind: nat, input: Input) returns (outcome: Outcome)
      modifies `raw, `interfaces
      ensures outcome.Done? || outcome.NoLeveeData?
      ensures outcome.Done? <==> AllLeveesKnown(InterfacesOf(TableOf(old(raw), kind)), kind, input)
      ensures outcome.Done? ==> interfaces == old(interfaces) + InterfacesOf(TableOf(old(raw), kind))
      ensures outcome.Done? ==> raw == Emptied(old(raw), kind)
    {
      var ok, made := PairFaces(TableOf(raw, kind), kind, input);
      if !ok {
        return NoLeveeData;
      }
      interfaces := interfaces + made;
      raw := Emptied(raw, kind);
      outcome := Done;
    }

    /** Empties the table of one boundary type. */
    method CreateBoundaries(kind: nat, input: Input) returns (outcome: Outcome)
      modifies `raw, `boundaries
      ensures outcome.Done? || outcome.NoBoundaryData?
      ensures outcome.Done? <==> AllHaveData(BoundariesOf(TableOf(old(raw), kind)), kind, input)
      ensures outcome.Done? ==> boundaries == old(boundaries) + BoundariesOf(TableOf(old(raw), kind))
      ensures outcome.Done? ==> raw == Emptied(old(raw), kind)
    {
      var ok, made := DrainTable(TableOf(raw, kind), kind, input);
      if !ok {
        return NoBoundaryData;
      }
      boundaries := boundaries + made;
      raw := Emptied(raw, kind);
      outcome := Done;
    }

    /** Looks a distributed face up in both tables and erases it, unless it is a levee without data. */
    method Take(k: Key, input: Input) returns (outcome: Outcome, s: Side)
      requires OneTable(raw)
      modifies `raw
      ensures outcome.Done? || outcome == NotFound(k) || outcome.NoLeveeData?
      ensures outcome.NotFound? <==> !FoundIn(old(raw), k)
      ensures outcome.NoLeveeData? <==> !CutKnown(old(raw), input, k)
      ensures outcome.Done? ==> FoundIn(old(raw), k) && s == FaceAt(old(raw), k) && Without(old(raw), [k], raw)
      ensures !outcome.Done? ==> raw == old(raw)
    {
      outcome, s := Done, Side(0, 0);
      if k in TableOf(raw, DISTRIBUTED) {
        s := raw[DISTRIBUTED][k];
        raw := raw[DISTRIBUTED := raw[DISTRIBUTED] - {k}];
      } else if k in TableOf(raw, DISTRIBUTED_LEVEE) {
        s := raw[DISTRIBUTED_LEVEE][k];
        if !input.cutLevee(s) {
          return NoLeveeData, s;
        }
        raw := raw[DISTRIBUTED_LEVEE := raw[DISTRIBUTED_LEVEE] - {k}];
      } else {
        outcome := NotFound(k);
      }
    }

    /** Builds one face and moves on the ends of the buffers. */
    method CreateCut(b: RankBoundary, input: Input, numGp: nat -> nat, n: nat, beginIndex: array<nat>,
                     ghost raw0: map<nat, Table>, ghost ks: seq<Key>) returns (outcome: Outcome)
      requires OneTable(raw0) && Rectangular(b) && n < |b.p| && Without(raw0, ks, raw)
      requires beginIndex[..] == OffsetsAt(GaussPoints(b, numGp), n)
      modifies `raw, `cuts, beginIndex
      ensures outcome.Done? || outcome == NotFound(FaceKey(b, n)) || outcome.NoLeveeData?
      ensures outcome.Done?
              <==> FoundIn(raw0, FaceKey(b, n)) && FaceKey(b, n) !in ks && CutKnown(raw0, input, FaceKey(b, n))
      ensures outcome.Done? ==>
                Without(raw0, ks + [FaceKey(b, n)], raw) && cuts == old(cuts) + [CutAt(raw0, b, numGp, n)]
      ensures outcome.Done? ==> beginIndex[..] == OffsetsAt(GaussPoints(b, numGp), n + 1)
    {
      var key := FaceKey(b, n);
      StillFound(raw0, ks, raw, key);
      StillKnown(raw0, input, ks, raw, key);
      StillOneTable(raw0, ks, raw);
      ghost var before := raw;
      var s: Side;
      outcome, s := Take(key, input);
      if outcome.Done? {
        WithoutOneMore(raw0, ks, before, key, raw);
        var offset := CommBufferOffsets(beginIndex, numGp(2 * b.p[n] + 1));
        cuts := cuts + [CutBoundary(s, b.localityEx, b.submeshEx, offset)];
        assert beginIndex[..] == OffsetsAt(GaussPoints(b, numGp), n + 1);
      }
    }

    /** Builds the next face of a rank boundary, if it is there. */
    method CreateNext(b: RankBoundary, input: Input, numGp: nat -> nat, n: nat, beginIndex: array<nat>,
                      ghost raw0: map<nat, Table>, ghost prior: seq<Key>) returns (outcome: Outcome)
      requires OneTable(raw0) && Rectangular(b) && n < |b.p| && FacesTaken(raw0, input, prior, b, n, raw)
      requires beginIndex[..] == OffsetsAt(GaussPoints(b, numGp), n)
      modifies `raw, `cuts, beginIndex
      ensures outcome.Done? || outcome.NotFound? || outcome.NoLeveeData?
      ensures !outcome.Done? ==> !Buildable(raw0, input, prior + FaceKeys(b, |b.p|))
      ensures outcome.Done? ==> FacesTaken(raw0, input, prior, b, n + 1, raw)
      ensures outcome.Done? ==> beginIndex[..] == OffsetsAt(GaussPoints(b, numGp), n + 1)
      ensures outcome.Done? ==> FoundIn(raw0, FaceKey(b, n)) && cuts == old(cuts) + [CutAt(raw0, b, numGp, n)]
    {
      FaceNext(raw0, input, prior, b, n);
      outcome := CreateCut(b, input, numGp, n, beginIndex, raw0, prior + FaceKeys(b, n));
    }

    /** Builds the faces shared with one neighbour, and sizes its buffers to hold all their slots. */
    method CreateForRank(b: RankBoundary, input: Input, numGp: nat -> nat, ghost raw0: map<nat, Table>,
                         ghost prior: seq<Key>)
      returns (outcome: Outcome, sizes: seq<nat>)
      requires OneTable(raw0) && Rectangular(b) && Buildable(raw0, input, prior) && Without(raw0, prior, raw)
      modifies `raw, `cuts
      ensures outcome.Done? || outcome.NotFound? || outcome.NoLeveeData?
      ensures outcome.Done? <==> Buildable(raw0, input, prior + FaceKeys(b, |b.p|))
      ensures outcome.Done? ==> Without(raw0, prior + FaceKeys(b, |b.p|), raw)
      ensures outcome.Done? ==> AllFound(raw0, b) && cuts == old(cuts) + CutsOf(raw0, b, numGp, |b.p|)
      ensures outcome.Done? ==> sizes == OffsetsAt(GaussPoints(b, numGp), |b.p|)
    {
      var beginIndex := new nat[N_COMMUNICATIONS](_ => 0);
      assert prior + FaceKeys(b, 0) == prior;
      for n := 0 to |b.p|
        invariant beginIndex[..] == OffsetsAt(GaussPoints(b, numGp), n)
        invariant FacesTaken(raw0, input, prior, b, n, raw) && cuts == old(cuts) + CutsOf(raw0, b, numGp, n)
      {
        outcome := CreateNext(b, input, numGp, n, beginIndex, raw0, prior);
        if !outcome.Done? {
          return outcome, [];
        }
        assert CutsOf(raw0, b, numGp, n + 1) == CutsOf(raw0, b, numGp, n) + [CutAt(raw0, b, numGp, n)];
      }
      outcome, sizes := Done, beginIndex[..];
    }

    method CreateNextRank(bs: seq<RankBoundary>, input: Input, numGp: nat -> nat, i: nat, ghost raw0: map<nat, Table>)
      returns (outcome: Outcome, size: seq<nat>)
      requires OneTable(raw0) && AllRectangular(bs) && i < |bs| && RanksTaken(raw0, input, bs, i, raw)
      modifies `raw, `cuts
      ensures !outcome.Done? ==> !Buildable(raw0, input, AllKeys(bs, |bs|))
      ensures outcome.Done? ==> RanksTaken(raw0, input, bs, i + 1, raw) && Sized(bs[i], numGp, size)
      ensures outcome.Done? ==> AllFound(raw0, bs[i]) && cuts == old(cuts) + CutsOf(raw0, bs[i], numGp, |bs[i].p|)
    {
      RankNext(raw0, input, bs, i);
      outcome, size := CreateForRank(bs[i], input, numGp, raw0, AllKeys(bs, i));
    }

    /** Takes the faces of every neighbour's rank boundary, in the order the metadata lists them. */
    method CreateDistributedBoundaries(bs: seq<RankBoundary>, input: Input, numGp: nat -> nat)
      returns (outcome: Outcome, sizes: seq<seq<nat>>)
      requires OneTable(raw) && AllRectangular(bs)
      modifies `raw, `cuts
      ensures outcome.Done? <==> Buildable(old(raw), input, AllKeys(bs, |bs|))
      ensures outcome.Done? ==> Without(old(raw), AllKeys(bs, |bs|), raw)
      ensures outcome.Done? ==>
                AllCutsFound(old(raw), bs, |bs|) && cuts == old(cuts) + AllCuts(old(raw), bs, numGp, |bs|)
      ensures outcome.Done? ==> |sizes| == |bs| && forall i | 0 <= i < |bs| :: Sized(bs[i], numGp, sizes[i])
    {
      ghost var raw0 := raw;
      sizes := [];
      for i := 0 to |bs|
        invariant RanksTaken(raw0, input, bs, i, raw) && cuts == old(cuts) + AllCuts(raw0, bs, numGp, i)
        invariant |sizes| == i && forall j | 0 <= j < i :: Sized(bs[j], numGp, sizes[j])
      {
        var size: seq<nat>;
        outcome, size := CreateNextRank(bs, input, numGp, i, raw0);
        if !outcome.Done? {
          return outcome, [];
        }
        sizes := sizes + [size];
      }
      outcome := Done;
    }

    /** Whether a table still holds a face. */
    method FindUnprocessed() returns (outcome: Outcome)
      ensures outcome.Done? <==> forall t | t in raw :: raw[t] == map[]
      ensures outcome.Done? || outcome.Unprocessed?
    {
      var types := raw.Keys;
      while types != {}
        invariant types <= raw.Keys && forall t | t in raw && t !in types :: raw[t] == map[]
      {
        var t :| t in types;
        if raw[t] != map[] {
          return Unprocessed(t);
        }
        types := types - {t};
      }
      outcome := Done;
    }

    method CreateNextKind(kinds: seq<nat>, input: Input, i: nat, ghost raw0: map<nat, Table>) returns (outcome: Outcome)
      requires forall i, j | 0 <= i < j < |kinds| :: kinds[i] != kinds[j]
      requires i < |kinds| && raw == EmptiedAll(raw0, kinds, i)
      modifies `raw, `boundaries
      ensures outcome.Done? || outcome.NoBoundaryData?
      ensures outcome.Done? <==> AllHaveData(BoundariesOf(TableOf(raw0, kinds[i])), kinds[i], input)
      ensures outcome.Done? ==> raw == EmptiedAll(raw0, kinds, i + 1)
      ensures outcome.Done? ==> boundaries == old(boundaries) + BoundariesOf(TableOf(raw0, kinds[i]))
    {
      EmptiedAllOther(raw0, kinds, i, kinds[i]);
      outcome := CreateBoundaries(kinds[i], input);
    }

    /** The boundaries of every kind the problem knows. */
    method CreateAllBoundaries(kinds: seq<nat>, input: Input) returns (outcome: Outcome)
      requires forall i, j | 0 <= i < j < |kinds| :: kinds[i] != kinds[j]
      modifies `raw, `boundaries
      ensures outcome.Done? || outcome.NoBoundaryData?
      ensures outcome.Done? <==> forall i | 0 <= i < |kinds| ::
                AllHaveData(BoundariesOf(TableOf(old(raw), kinds[i])), kinds[i], input)
      ensures outcome.Done? ==> raw == EmptiedAll(old(raw), kinds, |kinds|)
      ensures outcome.Done? ==> boundaries == old(boundaries) + AllBoundaries(old(raw), kinds, |kinds|)
    {
      for i := 0 to |kinds|
        invariant raw == EmptiedAll(old(raw), kinds, i)
        invariant boundaries == old(boundaries) + AllBoundaries(old(raw), kinds, i)
        invariant forall j | 0 <= j < i :: AllHaveData(BoundariesOf(TableOf(old(raw), kinds[j])), kinds[j], input)
      {
        outcome := CreateNextKind(kinds, input, i, old(raw));
        if !outcome.Done? {
          return;
        }
      }
      outcome := Done;
    }

    /** Interfaces, then boundaries. */
    method CreateLocal(kinds: seq<nat>, input: Input) returns (outcome: Outcome)
      requires Kinds(kinds)
      modifies `raw, `interfaces, `boundaries
      ensures outcome.Done? <==> HasAllData(old(raw), kinds, input)
      ensures outcome.Done? ==> raw == Drained(old(raw), kinds)
      ensures outcome.Done? ==>
                interfaces == old(interfaces) + InterfacesOf(TableOf(old(raw), INTERNAL))
                    + InterfacesOf(TableOf(old(raw), LEVEE))
      ensures outcome.Done? ==> boundaries == old(boundaries) + AllBoundaries(old(raw), kinds, |kinds|)
    {
      BoundariesUntouched(raw, kinds, |kinds|);
      outcome := CreateInterfaces(INTERNAL, input);
      outcome := CreateInterfaces(LEVEE, input);
      if !outcome.Done? {
        return;
      }
      outcome := CreateAllBoundaries(kinds, input);
    }

    /** Distributed boundaries, then the check that nothing is left. */
    method CreateRest(bs: seq<RankBoundary>, kinds: seq<nat>, input: Input, numGp: nat -> nat,
                      ghost reg: map<nat, Table>)
      returns (outcome: Outcome, sizes: seq<seq<nat>>)
      requires raw == Drained(reg, kinds) && OneTable(raw) && SameCutTables(raw, reg) && AllRectangular(bs)
      modifies `raw, `cuts
      ensures outcome.Done? <==> HasCutData(reg, bs, input) && CutsMatch(reg, bs, kinds)
      ensures outcome.Done? ==> AllCutsFound(reg, bs, |bs|) && cuts == old(cuts) + AllCuts(reg, bs, numGp, |bs|)
      ensures outcome.Done? ==> |sizes| == |bs| && forall i | 0 <= i < |bs| :: Sized(bs[i], numGp, sizes[i])
    {
      SameBuildable(Drained(reg, kinds), reg, input, AllKeys(bs, |bs|));
      outcome, sizes := CreateDistributedBoundaries(bs, input, numGp);
      if !outcome.Done? {
        return;
      }
      SameAllCuts(Drained(reg, kinds), reg, bs, numGp, |bs|);
      outcome := FindUnprocessed();
      LeftoverExact(reg, kinds, AllKeys(bs, |bs|), raw);
    }

    /** Builds all objects from the filled tables and checks that nothing is left. */
    method CreateObjects(bs: seq<RankBoundary>, kinds: seq<nat>, input: Input, numGp: nat -> nat)
      returns (outcome: Outcome, sizes: seq<seq<nat>>)
      requires OneTable(raw) && AllRectangular(bs) && Kinds(kinds)
      requires interfaces == [] && boundaries == [] && cuts == []
      modifies this
      ensures outcome.Done? <==>
                HasAllData(old(raw), kinds, input) && HasCutData(old(raw), bs, input) && CutsMatch(old(raw), bs, kinds)
      ensures outcome.Done? ==> Built(old(raw), bs, kinds, numGp, interfaces, boundaries, cuts, sizes)
    {
      StagesKeepCuts(raw, kinds);
      ghost var reg := raw;
      sizes := [];
      outcome := CreateLocal(kinds, input);
      if outcome.Done? {
        outcome, sizes := CreateRest(bs, kinds, input, numGp, reg);
      }
    }

    /** Registers all faces and builds all objects.  `reg` is the tables once filled. */
    method Initialize(neighbor: map<Side, nat>, btype: map<Side, nat>, elements: seq<nat>, bs: seq<RankBoundary>,
                      kinds: seq<nat>, input: Input, numGp: nat -> nat)
      returns (outcome: Outcome, sizes: seq<seq<nat>>, ghost reg: map<nat, Table>)
      requires FullTable(elements, neighbor) && FullTable(elements, btype) && AllRectangular(bs) && Kinds(kinds)
      requires forall i, j | 0 <= i < j < |elements| :: elements[i] != elements[j]
      requires interfaces == [] && boundaries == [] && cuts == []
      modifies this
      ensures Registered(neighbor, btype, SidesOfElements(elements), reg)
      ensures outcome.Done?
              <==> HasAllData(reg, kinds, input) && HasCutData(reg, bs, input) && CutsMatch(reg, bs, kinds)
      ensures outcome.Done? ==> Built(reg, bs, kinds, numGp, interfaces, boundaries, cuts, sizes)
    {
      RegisterAll(neighbor, btype, elements);
      reg := raw;
      RegisteredOneTable(neighbor, btype, SidesOfElements(elements), reg);
      outcome, sizes := CreateObjects(bs, kinds, input, numGp);
    }
  }
}
