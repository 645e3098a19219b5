/** Sums, concatenations and integer ranges over sequences, shared by the other modules. */
module Sequences {

  /** The integers lo, lo+1, ..., lo+n-1. */
  function Range(lo: nat, n: nat): (r: seq<nat>)
    ensures |r| == n
  {
    seq(n, i => lo + i)
  }

  /** Sums from the front, so that a loop's running total is the sum of a prefix. */
  function Sum(s: seq<nat>): nat {
    if |s| == 0 then 0 else Sum(s[..|s| - 1]) + s[|s| - 1]
  }

  function Flatten<T>(ss: seq<seq<T>>): seq<T> {
    if |ss| == 0 then [] else Flatten(ss[..|ss| - 1]) + ss[|ss| - 1]
  }

  /** The sums of all proper prefixes: what an exclusive scan leaves in place. */
  function ExclusiveScan(s: seq<nat>): (r: seq<nat>)
    ensures |r| == |s|
  {
    seq(|s|, i requires 0 <= i < |s| => Sum(s[..i]))
  }

  lemma SumStep(s: seq<nat>, i: nat)
    requires i < |s|
    ensures Sum(s[..i + 1]) == Sum(s[..i]) + s[i]
  {
    assert s[..i + 1][..i] == s[..i];
  }

  lemma FlattenStep<T>(ss: seq<seq<T>>, i: nat)
    requires i < |ss|
    ensures Flatten(ss[..i + 1]) == Flatten(ss[..i]) + ss[i]
  {
    assert ss[..i + 1][..i] == ss[..i];
  }

  lemma RangeSplit(lo: nat, n: nat, m: nat)
    ensures Range(lo, n) + Range(lo + n, m) == Range(lo, n + m)
  {
  }

  lemma {:induction false} FlattenAppend<T>(a: seq<seq<T>>, b: seq<seq<T>>)
    ensures Flatten(a + b) == Flatten(a) + Flatten(b)
  {
    if |b| == 0 {
      assert a + b == a;
    } else {
      FlattenAppend(a, b[..|b| - 1]);
      assert (a + b)[..|a + b| - 1] == a + b[..|b| - 1];
    }
  }

  lemma {:induction false} SumAppend(a: seq<nat>, b: seq<nat>)
    ensures Sum(a + b) == Sum(a) + Sum(b)
  {
    if |b| == 0 {
      assert a + b == a;
    } else {
      SumAppend(a, b[..|b| - 1]);
      assert (a + b)[..|a + b| - 1] == a + b[..|b| - 1];
    }
  }

  lemma {:induction false} SumMonotone(s: seq<nat>, i: nat, j: nat)
    requires i <= j <= |s|
    ensures Sum(s[..i]) <= Sum(s[..j])
    decreases j - i
  {
    if i < j {
      SumStep(s, i);
      SumMonotone(s, i + 1, j);
    }
  }

  /** Block i is a range of its own width that starts at its exclusive-scan offset. */
  ghost predicate TiledAt(base: nat, widths: seq<nat>, blocks: seq<seq<nat>>, i: nat)
    requires i < |blocks| == |widths|
  {
    blocks[i] == Range(base + Sum(widths[..i]), widths[i])
  }

  ghost predicate Tiled(base: nat, widths: seq<nat>, blocks: seq<seq<nat>>) {
    && |blocks| == |widths|
    && forall i | 0 <= i < |blocks| :: TiledAt(base, widths, blocks, i)
  }

  lemma {:induction false} TilesPrefix(base: nat, widths: seq<nat>, blocks: seq<seq<nat>>, k: nat)
    requires Tiled(base, widths, blocks) && k <= |blocks|
    ensures Flatten(blocks[..k]) == Range(base, Sum(widths[..k]))
  {
    if k > 0 {
      TilesPrefix(base, widths, blocks, k - 1);
      assert TiledAt(base, widths, blocks, k - 1);
      FlattenStep(blocks, k - 1);
      SumStep(widths, k - 1);
      RangeSplit(base, Sum(widths[..k - 1]), widths[k - 1]);
    }
  }

  /** Tiled blocks concatenate to one range. */
  lemma TilesRange(base: nat, widths: seq<nat>, blocks: seq<seq<nat>>)
    requires Tiled(base, widths, blocks)
    ensures Flatten(blocks) == Range(base, Sum(widths))
  {
    TilesPrefix(base, widths, blocks, |blocks|);
    assert blocks[..|blocks|] == blocks;
    assert widths[..|widths|] == widths;
  }

  /** Ranges at different scan positions do not meet. */
  lemma ScanRangesDisjoint(base: nat, widths: seq<nat>, i: nat, j: nat)
    requires i < j < |widths|
    ensures base + Sum(widths[..i]) + widths[i] <= base + Sum(widths[..j])
  {
    SumStep(widths, i);
    SumMonotone(widths, i + 1, j);
  }

  /** A block of a concatenation sits at the total length of the blocks before it. */
  lemma {:induction false} FlattenSlice<T>(ss: seq<seq<T>>, i: nat)
    requires i < |ss|
    ensures |Flatten(ss[..i])| + |ss[i]| <= |Flatten(ss)|
    ensures Flatten(ss)[|Flatten(ss[..i])|..|Flatten(ss[..i])| + |ss[i]|] == ss[i]
  {
    assert ss == ss[..i + 1] + ss[i + 1..];
    FlattenAppend(ss[..i + 1], ss[i + 1..]);
    FlattenStep(ss, i);
  }

  lemma {:induction false} InFlatten<T>(ss: seq<seq<T>>, x: T)
    ensures x in Flatten(ss) <==> exists i :: 0 <= i < |ss| && x in ss[i]
  {
    if |ss| > 0 {
      var n := |ss| - 1;
      InFlatten(ss[..n], x);
      if x in Flatten(ss[..n]) {
        var i :| 0 <= i < n && x in ss[..n][i];
        assert x in ss[i];
      }
      if i :| 0 <= i < |ss| && x in ss[i] {
        if i < n {
          assert x in ss[..n][i];
        }
      }
    }
  }

  lemma EndOfBlock(widths: seq<nat>, i: nat)
    requires i < |widths|
    ensures Sum(widths[..i]) + widths[i] <= Sum(widths)
  {
    SumStep(widths, i);
    SumMonotone(widths, i + 1, |widths|);
    assert widths[..|widths|] == widths;
  }

  /** A point lies in at most one block of a scan. */
  lemma SamePlace(base: nat, widths: seq<nat>, i: nat, j: nat, k: nat)
    requires i < |widths| && j < |widths|
    requires base + Sum(widths[..i]) <= k < base + Sum(widths[..i]) + widths[i]
    requires base + Sum(widths[..j]) <= k < base + Sum(widths[..j]) + widths[j]
    ensures i == j
  {
    if i < j {
      ScanRangesDisjoint(base, widths, i, j);
    } else if j < i {
      ScanRangesDisjoint(base, widths, j, i);
    }
  }

  /** A loop over a list replaced its first k entries by their targets. */
  ghost predicate Replaced<T(!new)>(now: seq<T>, before: seq<T>, target: seq<T>, k: nat) {
    && |now| == |before| == |target| && k <= |now|
    && (forall i | 0 <= i < k :: now[i] == target[i])
    && (forall i | k <= i < |now| :: now[i] == before[i])
  }

  lemma ReplacedNext<T(!new)>(now: seq<T>, before: seq<T>, target: seq<T>, k: nat, now': seq<T>)
    requires Replaced(now, before, target, k) && k < |now| && now' == now[k := target[k]]
    ensures Replaced(now', before, target, k + 1)
  {
  }

  lemma AllReplaced<T(!new)>(now: seq<T>, before: seq<T>, target: seq<T>)
    requires Replaced(now, before, target, |now|)
    ensures now == target
  {
  }

  /** Applies f to the first k elements, front to back. */
  function Fold<A, B>(f: (A, B) -> A, start: A, s: seq<B>, k: nat): A
    requires k <= |s|
  {
    if k == 0 then start else f(Fold(f, start, s, k - 1), s[k - 1])
  }

  lemma {:induction false} FoldPrefix<A, B>(f: (A, B) -> A, start: A, a: seq<B>, b: seq<B>, k: nat)
    requires k <= |a|
    ensures Fold(f, start, a + b, k) == Fold(f, start, a, k)
  {
    if k > 0 {
      FoldPrefix(f, start, a, b, k - 1);
    }
  }

  /** Folding two sequences one after the other is folding their concatenation. */
  lemma {:induction false} FoldConcat<A, B>(f: (A, B) -> A, start: A, a: seq<B>, b: seq<B>, k: nat)
    requires k <= |b|
    ensures Fold(f, start, a + b, |a| + k) == Fold(f, Fold(f, start, a, |a|), b, k)
  {
    if k == 0 {
      FoldPrefix(f, start, a, b, |a|);
    } else {
      FoldConcat(f, start, a, b, k - 1);
      assert (a + b)[|a| + k - 1] == b[k - 1];
    }
  }

  ghost predicate Distinct<T(!new)>(s: seq<T>) {
    forall i, j | 0 <= i < j < |s| :: s[i] != s[j]
  }

  lemma DistinctConcat<T(!new)>(a: seq<T>, b: seq<T>)
    requires Distinct(a) && Distinct(b) && forall x | x in a :: x !in b
    ensures Distinct(a + b)
  {
    forall i, j | 0 <= i < j < |a + b|
      ensures (a + b)[i] != (a + b)[j]
    {
      assert i < |a| ==> (a + b)[i] == a[i] && a[i] in a;
      assert |a| <= j ==> (a + b)[j] == b[j - |a|] && b[j - |a|] in b;
    }
  }
}
