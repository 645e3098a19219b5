/** The limiter kernel as it runs on an element: in-place loops over variables, midpoints and vertices. */
module SlopeLimiterKernel {
  import opened SlopeLimiter

  const N_VARIABLES: nat := 3

  /** Row v of a three-column matrix. */
  ghost function RowOf(a: array2<real>, v: nat): Triple
    requires v < a.Length0 && a.Length1 >= 3
    reads a
  {
    Triple(a[v, 0], a[v, 1], a[v, 2])
  }

  class LimiterElement {
    const q: array2<real>
    const delta: array2<real>
    const qAtVrtx: array2<real>
    var sl: LimiterInput
    var wet: bool
    var wetNeigh: seq<bool>

    ghost predicate Valid()
      reads this
    {
      && q.Length0 == delta.Length0 == qAtVrtx.Length0 == 3 && q.Length1 >= 3 && delta.Length1 == qAtVrtx.Length1 == 3
      && q != delta && q != qAtVrtx && delta != qAtVrtx && |wetNeigh| == 3 && sl.Sized()
    }

    /** The element and all its neighbours are wet. */
    ghost predicate Active()
      reads this
    {
      wet && false !in wetNeigh
    }

    /** The linear part of a wet element, and its values at the barycentre and the midpoints. */
    method PrepareElement()
      requires Valid()
      modifies `sl
      ensures Valid()
      ensures if wet then forall v | 0 <= v < 3 :: Prepared(sl, v, RowOf(q, v)) else sl == old(sl)
    {
      if wet {
        var l0 := ToLinear(Triple(q[0, 0], q[0, 1], q[0, 2]));
        var l1 := ToLinear(Triple(q[1, 0], q[1, 1], q[1, 2]));
        var l2 := ToLinear(Triple(q[2, 0], q[2, 1], q[2, 2]));
        sl := sl.(lin := Matrix(l0, l1, l2),
                  bary := Triple(AtBarycentre(l0), AtBarycentre(l1), AtBarycentre(l2)),
                  mid := Matrix(AtMidpoints(l0), AtMidpoints(l1), AtMidpoints(l2)));
      }
    }

    /** The limited midpoint differences, column by column, back in the conserved variables. */
    method ComputeDeltas(t: Transforms)
      requires Valid()
      modifies delta
      ensures forall v | 0 <= v < 3 :: RowOf(delta, v) == DeltaRow(sl, t, v)
    {
      for bound := 0 to 3
        invariant forall v, b | 0 <= v < 3 && 0 <= b < bound :: delta[v, b] == DeltaColumn(sl, t, b).At(v)
      {
        var tilda, slope := MidpointDifference(sl, t, bound), NeighbourDifference(sl, t, bound);
        var column := t.forward(bound, MinmodAll(tilda, slope, sl.rSq[bound]));
        delta[0, bound], delta[1, bound], delta[2, bound] := column.x0, column.x1, column.x2;
      }
    }

    /** Sums one variable's differences, and their positive and negative parts. */
    method SumRow(v: nat) returns (sum: real, positive: real, negative: real)
      requires Valid() && v < 3
      ensures sum == RowOf(delta, v).Sum()
      ensures positive == PositivePart(RowOf(delta, v)) && negative == NegativePart(RowOf(delta, v))
    {
      ghost var d := RowOf(delta, v);
      sum, positive, negative := 0.0, 0.0, 0.0;
      for b := 0 to 3
        invariant sum == Upto(d, b) && positive == Upto(Positives(d), b) && negative == Upto(Negatives(d), b)
      {
        sum := sum + delta[v, b];
        positive := positive + Max(0.0, delta[v, b]);
        negative := negative + Max(0.0, -delta[v, b]);
      }
      UptoAll(d);
      UptoAll(Positives(d));
      UptoAll(Negatives(d));
    }

    /** Scales the positive and the negative differences of one variable so that they cancel. */
    method RescaleRow(v: nat)
      requires Valid() && v < 3
      modifies delta
      ensures RowOf(delta, v) == Rescaled(old(RowOf(delta, v)))
      ensures forall w, b | 0 <= w < 3 && 0 <= b < 3 && w != v :: delta[w, b] == old(delta[w, b])
    {
      var sum, positive, negative := SumRow(v);
      if sum != 0.0 {
        var thetaPositive, thetaNegative := Theta(negative, positive), Theta(positive, negative);
        ghost var target := Rescaled(RowOf(delta, v));
        for b := 0 to 3
          invariant forall w, j | 0 <= w < 3 && 0 <= j < 3 ::
                      delta[w, j] == if w == v && j < b then target.At(j) else old(delta[w, j])
        {
          delta[v, b] := Shrunk(delta[v, b], thetaPositive, thetaNegative);
        }
      }
    }

    method RescaleDeltas()
      requires Valid()
      modifies delta
      ensures forall v | 0 <= v < 3 :: RowOf(delta, v) == Rescaled(old(RowOf(delta, v)))
    {
      for v := 0 to N_VARIABLES
        invariant forall w, b | 0 <= w < 3 && 0 <= b < 3 ::
                    delta[w, b] == if w < v then Rescaled(old(RowOf(delta, w))).At(b) else old(delta[w, b])
      {
        RescaleRow(v);
      }
    }

    /** Vertex values: the barycentre value in every column, plus the differences times T. */
    method RebuildVertices()
      requires Valid()
      modifies qAtVrtx
      ensures forall v | 0 <= v < 3 :: RowOf(qAtVrtx, v) == Rebuilt(sl.bary.At(v), RowOf(delta, v))
    {
      for vrtx := 0 to 3
        invariant forall v, j | 0 <= v < 3 && 0 <= j < vrtx ::
                    qAtVrtx[v, j] == Rebuilt(sl.bary.At(v), RowOf(delta, v)).At(j)
      {
        for v := 0 to N_VARIABLES
          invariant forall w, j | 0 <= w < 3 && 0 <= j < vrtx ::
                      qAtVrtx[w, j] == Rebuilt(sl.bary.At(w), RowOf(delta, w)).At(j)
          invariant forall w | 0 <= w < v :: qAtVrtx[w, vrtx] == Rebuilt(sl.bary.At(w), RowOf(delta, w)).At(vrtx)
        {
          qAtVrtx[v, vrtx] := sl.bary.At(v)
              + (delta[v, 0] * T(0, vrtx) + delta[v, 1] * T(1, vrtx) + delta[v, 2] * T(2, vrtx));
        }
      }
    }

    /** Writes back the variables that changed: linear part from the vertices, higher degrees of freedom zero. */
    method WriteBack()
      requires Valid()
      modifies q
      ensures forall v, k | 0 <= v < 3 && 0 <= k < q.Length1 ::
                q[v, k] == Written(RowOf(qAtVrtx, v), sl.lin.Row(v), k, old(q[v, k]))
    {
      for v := 0 to N_VARIABLES
        invariant forall w, k | 0 <= w < 3 && 0 <= k < q.Length1 ::
                    q[w, k] == if w < v then Written(RowOf(qAtVrtx, w), sl.lin.Row(w), k, old(q[w, k]))
                        else old(q[w, k])
      {
        var row := Triple(qAtVrtx[v, 0], qAtVrtx[v, 1], qAtVrtx[v, 2]);
        if Moved(row, sl.lin.Row(v)) {
          for k := 0 to q.Length1
            invariant forall w, j | 0 <= w < 3 && 0 <= j < q.Length1 ::
                        q[w, j] == if w < v || (w == v && j < k) then
                            Written(RowOf(qAtVrtx, w), sl.lin.Row(w), j, old(q[w, j]))
                                   else old(q[w, j])
          {
            q[v, k] := if k < 3 then ToBasis(row).At(k) else 0.0;
          }
        }
      }
    }

    /** The kernel proper, for any transformations into and out of characteristic variables. */
    method LimitWith(t: Transforms)
      requires Valid()
      modifies q, delta, qAtVrtx
      ensures forall v, k | 0 <= v < 3 && 0 <= k < q.Length1 ::
                q[v, k] == Written(VertexRow(sl, t, v), sl.lin.Row(v), k, old(q[v, k]))
    {
      ComputeDeltas(t);
      RescaleDeltas();
      RebuildVertices();
      WriteBack();
    }

    /**
     The whole kernel.  Away from dry cells every variable gets the rebuilt row if that differs; the cell mean of a
     prepared variable is kept on every branch, and an element with medians of unit length on which minmod limits
     nothing is left as it was.
     */
    method Limit(wave: real -> real)
      requires Valid() && (Active() ==> sl.Wet(wave))
      modifies q, delta, qAtVrtx
      ensures !Active() ==> forall v, k | 0 <= v < 3 && 0 <= k < q.Length1 :: q[v, k] == old(q[v, k])
      ensures Active() ==> forall v, k | 0 <= v < 3 && 0 <= k < q.Length1 ::
                             q[v, k] == Written(VertexRow(sl, Characteristic(sl, wave), v), sl.lin.Row(v), k,
                                                old(q[v, k]))
      ensures forall v | 0 <= v < 3 && Prepared(sl, v, old(RowOf(q, v))) :: q[v, 0] == old(q[v, 0])
      ensures forall v, k | 0 <= v < 3 && 0 <= k < q.Length1 ::
                Active() && Unlimited(sl, wave) && Prepared(sl, v, old(RowOf(q, v))) ==> q[v, k] == old(q[v, k])
    {
      if wet && false !in wetNeigh {
        var t := Characteristic(sl, wave);
        LimitWith(t);
        forall v | 0 <= v < 3 && Prepared(sl, v, old(RowOf(q, v)))
          ensures q[v, 0] == old(q[v, 0])
          ensures Unlimited(sl, wave) ==> !Moved(VertexRow(sl, t, v), sl.lin.Row(v))
        {
          VertexRowKeepsMean(sl, t, v, old(RowOf(q, v)));
          if Unlimited(sl, wave) {
            UnlimitedRowUnchanged(sl, wave, v, old(RowOf(q, v)));
          }
        }
      }
    }
  }

  function Upto(t: Triple, k: nat): real
    requires k <= 3
  {
    if k == 0 then 0.0 else Upto(t, k - 1) + t.At(k - 1)
  }

  lemma UptoAll(t: Triple)
    ensures Upto(t, 3) == t.Sum()
  {
    assert Upto(t, 1) == t.x0 && Upto(t, 2) == t.x0 + t.x1;
  }

  function Positives(d: Triple): Triple {
    Triple(Max(0.0, d.x0), Max(0.0, d.x1), Max(0.0, d.x2))
  }

  function Negatives(d: Triple): Triple {
    Triple(Max(0.0, -d.x0), Max(0.0, -d.x1), Max(0.0, -d.x2))
  }

  /** Degree of freedom k of a variable whose vertex values went from lin to row. */
  function Written(row: Triple, lin: Triple, k: nat, before: real): real {
    if !Moved(row, lin) then before else if k < 3 then ToBasis(row).At(k) else 0.0
  }
}
