/** The pass of preprocessor_ompi over the sim units of a rank, and its collectives over the ranks. */
module RankNumbering {
  import opened Sequences
  import opened DofNumbering
  import opened SimUnits

  function ViewWidths(views: seq<Unit>): (w: seq<nat>)
    ensures |w| == |views|
  {
    seq(|views|, u requires 0 <= u < |views| => UnitWidth(views[u]))
  }

  /** The units' current values, in order. */
  ghost predicate HasViews(units: seq<SimUnit>, views: seq<Unit>)
    reads units
  {
    |units| == |views| && forall u | 0 <= u < |units| :: units[u].View() == views[u]
  }

  ghost predicate Distinct(units: seq<SimUnit>) {
    forall i, j | 0 <= i < j < |units| :: units[i] != units[j]
  }

  /** The rank's units after local numbering, and after the shift. */
  function LocalViews(views: seq<Unit>): (r: seq<Unit>)
    ensures |r| == |views|
  {
    seq(|views|, u requires 0 <= u < |views| => PreSend(views[u], 0))
  }

  predicate Shiftable(u: Unit) {
    u.Sized() && u.SlotsExist() && u.HasDofs()
  }

  predicate AllShiftable(views: seq<Unit>) {
    forall u | 0 <= u < |views| :: Shiftable(views[u])
  }

  function ShiftedViews(views: seq<Unit>, offsets: seq<nat>, rankOffset: nat): (r: seq<Unit>)
    requires |views| == |offsets|
    requires AllShiftable(views)
    ensures |r| == |views|
  {
    assert forall u | 0 <= u < |views| :: Shiftable(views[u]);
    seq(|views|, u requires 0 <= u < |views| => Finalized(views[u], offsets[u] + rankOffset))
  }

  method Accumulate(a: array<nat>) returns (total: nat)
    ensures total == Sum(a[..])
  {
    total := 0;
    for i := 0 to a.Length
      invariant total == Sum(a[..i])
    {
      SumStep(a[..], i);
      assert a[..][..i] == a[..i] && a[..][..i + 1] == a[..i + 1];
      total := total + a[i];
    }
    assert a[..a.Length] == a[..];
  }

  /** Moves the last entry to the front. */
  method RotateRight(a: array<nat>)
    requires a.Length > 0
    modifies a
    ensures a[..] == [old(a[a.Length - 1])] + old(a[..a.Length - 1])
  {
    var last := a[a.Length - 1];
    var i := a.Length - 1;
    while i > 0
      invariant 0 <= i < a.Length
      invariant forall k | 0 <= k < i :: a[k] == old(a[k])
      invariant forall k | i < k < a.Length :: a[k] == old(a[k - 1])
    {
      a[i] := a[i - 1];
      i := i - 1;
    }
    a[0] := last;
  }

  /** Rotates, clears the front and adds up: every entry becomes the sum of the entries before it. */
  method ExclusiveScanInPlace(a: array<nat>)
    requires a.Length > 0
    modifies a
    ensures a[..] == ExclusiveScan(old(a[..]))
  {
    ghost var s := a[..];
    RotateRight(a);
    a[0] := 0;
    AddUp(a, s);
  }

  /** Partial sums in place, over entries moved up by one. */
  method AddUp(a: array<nat>, ghost s: seq<nat>)
    requires a.Length == |s| > 0 && a[0] == 0 && forall k | 1 <= k < a.Length :: a[k] == s[k - 1]
    modifies a
    ensures a[..] == ExclusiveScan(s)
  {
    ghost var target := ExclusiveScan(s);
    for i := 1 to a.Length
      invariant forall k | 0 <= k < i :: a[k] == target[k]
      invariant forall k | i <= k < a.Length :: a[k] == s[k - 1]
    {
      ScanStep(s, i);
      a[i] := a[i] + a[i - 1];
    }
  }

  lemma ScanStep(s: seq<nat>, i: nat)
    requires 0 < i < |s|
    ensures ExclusiveScan(s)[i] == ExclusiveScan(s)[i - 1] + s[i - 1]
  {
    SumStep(s, i - 1);
  }

  /** The first u values are the new ones, the others the old. */
  ghost predicate Halfway(now: seq<Unit>, done: seq<Unit>, views: seq<Unit>, u: nat) {
    && |now| == |done| == |views| && u <= |now|
    && (forall i | 0 <= i < u :: now[i] == done[i]) && (forall i | u <= i < |now| :: now[i] == views[i])
  }

  method NumberUnit(units: seq<SimUnit>, u: nat, ghost views: seq<Unit>) returns (width: nat)
    requires Distinct(units) && HasViews(units, views) && u < |units|
    modifies units[u]
    ensures HasViews(units, views[u := PreSend(views[u], 0)]) && width == UnitWidth(views[u])
  {
    width := units[u].ParallelPreSend(0);
  }

  /** Every unit numbers its own edges from 0. */
  method NumberAll(units: seq<SimUnit>, ghost views: seq<Unit>) returns (widths: seq<nat>)
    requires Distinct(units) && HasViews(units, views)
    modifies units
    ensures HasViews(units, LocalViews(views)) && widths == ViewWidths(views)
  {
    ghost var target := LocalViews(views);
    ghost var now := views;
    widths := [];
    for u := 0 to |units|
      invariant HasViews(units, now) && Halfway(now, target, views, u) && widths == ViewWidths(views)[..u]
    {
      var width := NumberUnit(units, u, now);
      now := now[u := target[u]];
      widths := widths + [width];
    }
    assert now == target;
  }

  /** Local numbering; the rank learns its total and each unit's offset. */
  method NumberLocally(units: seq<SimUnit>, ghost views: seq<Unit>) returns (offsets: seq<nat>, total: nat)
    requires |units| > 0 && Distinct(units) && HasViews(units, views)
    modifies units
    ensures HasViews(units, LocalViews(views))
    ensures total == Sum(ViewWidths(views))
    ensures offsets == ExclusiveScan(ViewWidths(views))
  {
    var widths := NumberAll(units, views);
    offsets, total := ScanWidths(widths);
  }

  method ScanWidths(widths: seq<nat>) returns (offsets: seq<nat>, total: nat)
    requires |widths| > 0
    ensures total == Sum(widths) && offsets == ExclusiveScan(widths)
  {
    var a := new nat[|widths|](i requires 0 <= i < |widths| => widths[i]);
    assert a[..] == widths;
    total := Accumulate(a);
    ExclusiveScanInPlace(a);
    offsets := a[..];
  }

  method ShiftUnit(units: seq<SimUnit>, u: nat, offset: nat, ghost views: seq<Unit>)
    requires Distinct(units) && HasViews(units, views) && u < |units| && Shiftable(views[u])
    modifies units[u]
    ensures HasViews(units, views[u := Finalized(views[u], offset)])
  {
    units[u].FinalizePreSend(offset);
  }

  /** Every unit shifts by its offset in the rank plus the rank's own. */
  method ShiftToGlobal(units: seq<SimUnit>, offsets: seq<nat>, rankOffset: nat, ghost views: seq<Unit>)
    requires Distinct(units) && HasViews(units, views) && |units| == |offsets|
    requires AllShiftable(views)
    modifies units
    ensures HasViews(units, ShiftedViews(views, offsets, rankOffset))
  {
    ghost var target := ShiftedViews(views, offsets, rankOffset);
    ghost var now := views;
    for u := 0 to |units|
      invariant HasViews(units, now) && Halfway(now, target, views, u)
    {
      assert Shiftable(views[u]);
      ShiftUnit(units, u, offsets[u] + rankOffset, now);
      now := now[u := target[u]];
    }
    assert now == target;
  }

  predicate AllAnnounced(views: seq<Unit>) {
    forall u | 0 <= u < |views| :: Announced(views[u])
  }

  /** The rank's index list after its first k units were collected. */
  function Listed(views: seq<Unit>, k: nat): seq<nat>
    requires k <= |views| && AllAnnounced(views)
  {
    if k == 0 then [] else
      assert Announced(views[k - 1]);
      Listed(views, k - 1) + Flatten(AllVectors(ReceivedUnit(views[k - 1])))
  }

  /** The units once their cut edges are complete and every edge knows its place in the rank's list. */
  function CollectedViews(views: seq<Unit>): (r: seq<Unit>)
    requires AllAnnounced(views)
    ensures |r| == |views|
  {
    seq(|views|, u requires 0 <= u < |views| => WithSolOffsets(ReceivedUnit(views[u]), |Listed(views, u)|))
  }

  /** The u-th unit's share of the work, when the units before it are done. */
  method CollectUnit(units: seq<SimUnit>, u: nat, list: seq<nat>, ghost now: seq<Unit>, ghost views: seq<Unit>)
    returns (list': seq<nat>)
    requires Distinct(units) && HasViews(units, now) && u < |units| == |views| && now[u] == views[u]
    requires AllAnnounced(views) && list == Listed(views, u)
    modifies units[u]
    ensures HasViews(units, now[u := CollectedViews(views)[u]])
    ensures list' == Listed(views, u + 1)
  {
    list' := units[u].PostReceive(list);
  }

  /** Completes every unit in turn and concatenates all index vectors of the rank. */
  method CollectIndices(units: seq<SimUnit>, ghost views: seq<Unit>) returns (list: seq<nat>)
    requires Distinct(units) && HasViews(units, views)
    requires AllAnnounced(views)
    modifies units
    ensures list == Listed(views, |units|)
    ensures HasViews(units, CollectedViews(views))
  {
    list := [];
    ghost var target := CollectedViews(views);
    ghost var now := views;
    for u := 0 to |units|
      invariant HasViews(units, now) && Halfway(now, target, views, u) && list == Listed(views, u)
    {
      list := CollectUnit(units, u, list, now, views);
      now := now[u := target[u]];
    }
    assert now == target;
  }

  lemma {:induction false} ListedGrows(views: seq<Unit>, i: nat, k: nat) returns (later: seq<nat>)
    requires i <= k <= |views| && AllAnnounced(views)
    ensures Listed(views, k) == Listed(views, i) + later
    decreases k
  {
    if i == k {
      later := [];
    } else {
      var mid := ListedGrows(views, i, k - 1);
      var last := Flatten(AllVectors(ReceivedUnit(views[k - 1])));
      later := mid + last;
      Associate(Listed(views, i), mid, last);
    }
  }

  lemma Associate(a: seq<nat>, b: seq<nat>, c: seq<nat>)
    ensures (a + b) + c == a + (b + c)
  {
  }

  /** In the rank's finished list, the slice at an edge's solution offset is that edge's own index vector. */
  lemma RankListServesEveryEdge(views: seq<Unit>, u: nat, j: nat)
    requires u < |views| && AllAnnounced(views)
    requires j < views[u].EdgeCount()
    ensures var unit := CollectedViews(views)[u];
            var list := Listed(views, |views|);
            && unit.EdgeCount() == views[u].EdgeCount()
            && SolOffsetAt(unit, j) + |IndicesAt(unit, j)| <= |list|
            && list[SolOffsetAt(unit, j)..SolOffsetAt(unit, j) + |IndicesAt(unit, j)|] == IndicesAt(unit, j)
  {
    var later := ListedGrows(views, u + 1, |views|);
    SolOffsetFindsVector(ReceivedUnit(views[u]), Listed(views, u), later, j);
  }

  /** The root's part of the collectives: the global count, and in place the first index of every rank. */
  method ScanTotals(totals: array<nat>) returns (count: nat)
    requires totals.Length > 0
    modifies totals
    ensures count == Sum(old(totals[..]))
    ensures totals[..] == ExclusiveScan(old(totals[..]))
  {
    count := Accumulate(totals);
    ExclusiveScanInPlace(totals);
  }

  ghost function NumberedRank(m: Machine, r: nat): (v: seq<Unit>)
    requires Ready(m) && r < |m|
    ensures |v| == |m[r]|
  {
    seq(|m[r]|, u requires 0 <= u < |m[r]| => NumberedUnit(m, r, u))
  }

  lemma ShiftGivesNumberedUnit(m: Machine, r: nat, u: nat)
    requires Ready(m) && r < |m| && u < |m[r]|
    ensures Shiftable(LocalViews(m[r])[u])
    ensures Finalized(LocalViews(m[r])[u], ExclusiveScan(Widths(m, r))[u] + ExclusiveScan(Totals(m))[r])
         == NumberedUnit(m, r, u)
  {
    PreSendKeepsShape(m[r][u], 0);
  }

  lemma ShiftGivesNumberedRank(m: Machine, r: nat)
    requires Ready(m) && r < |m|
    ensures AllShiftable(LocalViews(m[r]))
    ensures ShiftedViews(LocalViews(m[r]), ExclusiveScan(Widths(m, r)), ExclusiveScan(Totals(m))[r])
         == NumberedRank(m, r)
  {
    forall u | 0 <= u < |m[r]|
      ensures Shiftable(LocalViews(m[r])[u])
      ensures Finalized(LocalViews(m[r])[u], ExclusiveScan(Widths(m, r))[u] + ExclusiveScan(Totals(m))[r])
           == NumberedRank(m, r)[u]
    {
      ShiftGivesNumberedUnit(m, r, u);
    }
  }

  /** Rank r's first phase: afterwards it has its share of the gather and its units' scan. */
  method NumberRank(units: seq<SimUnit>, ghost m: Machine, ghost r: nat) returns (offsets: seq<nat>, total: nat)
    requires r < |m| && |units| > 0 && Distinct(units) && HasViews(units, m[r])
    modifies units
    ensures HasViews(units, LocalViews(m[r]))
    ensures total == Totals(m)[r] && offsets == ExclusiveScan(Widths(m, r))
  {
    offsets, total := NumberLocally(units, m[r]);
    assert ViewWidths(m[r]) == Widths(m, r);
  }

  /** Rank r's second phase, with the offset the root scattered to it: the unit values of the machine-wide numbering. */
  method ShiftRank(units: seq<SimUnit>, offsets: seq<nat>, rankOffset: nat, ghost m: Machine, ghost r: nat)
    requires Ready(m) && r < |m| && Distinct(units) && HasViews(units, LocalViews(m[r]))
    requires offsets == ExclusiveScan(Widths(m, r)) && rankOffset == ExclusiveScan(Totals(m))[r]
    modifies units
    ensures HasViews(units, NumberedRank(m, r))
  {
    ShiftGivesNumberedRank(m, r);
    ShiftToGlobal(units, offsets, rankOffset, LocalViews(m[r]));
  }
}
