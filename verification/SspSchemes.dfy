/** What follows from the numbers in the tables of the Runge-Kutta stepper, taken exactly. */
module SspSchemes {
  import opened Reals
  import opened SspRk
  import opened SspTables

  ghost predicate KeepsBounds(c: Scheme, dt: real, tau: real)
    requires c.Valid()
  {
    forall stage | 0 <= stage < c.nstages :: ConvexRow(c, dt, tau, stage)
  }

  // ----- gains of tables whose rows do not all sum to one -----

  /** No negative weight, and every stage uses the one before it. */
  ghost predicate Positive(c: Scheme) {
    && c.Valid()
    && (forall i, j | 0 <= i < c.nstages && 0 <= j <= i :: c.ark[i][j] >= 0.0)
    && (forall i | 0 <= i < c.nstages :: c.ark[i][i] > 0.0)
  }

  ghost predicate Exact(c: Scheme)
    requires c.Valid()
  {
    forall i | 0 <= i < c.nstages :: RowSum(c.ark[i], i + 1) == 1.0
  }

  /** x is at least y, or at most y. */
  predicate Beside(more: bool, x: real, y: real) {
    if more then x >= y else x <= y
  }

  /** The row sums stray from one in one direction only. */
  ghost predicate OneSided(c: Scheme, more: bool)
    requires c.Valid()
  {
    forall i | 0 <= i < c.nstages :: Beside(more, RowSum(c.ark[i], i + 1), 1.0)
  }

  lemma {:induction false} GainSumBeside(c: Scheme, more: bool, stage: nat, k: nat)
    requires Positive(c) && stage < c.nstages && k <= stage + 1
    requires forall j | 0 <= j < k :: Beside(more, Gain(c, j), 1.0)
    ensures Beside(more, GainSum(c, stage, k), RowSum(c.ark[stage], k))
    decreases k
  {
    if k > 0 {
      GainSumBeside(c, more, stage, k - 1);
      WeightedBeside(more, c.ark[stage][k - 1], Gain(c, k - 1));
    }
  }

  lemma WeightedBeside(more: bool, a: real, g: real)
    requires a >= 0.0 && Beside(more, g, 1.0)
    ensures Beside(more, a * g, a)
    ensures a > 0.0 && g != 1.0 ==> a * g != a
  {
    assert a * g - a == a * (g - 1.0);
  }

  /** Then the gains stray in the same direction, and never come back to one. */
  lemma {:induction false} GainsStray(c: Scheme, more: bool, s: nat)
    requires Positive(c) && OneSided(c, more) && s <= c.nstages
    ensures Beside(more, Gain(c, s), 1.0)
    ensures Gain(c, s) == 1.0 ==> forall i | 0 <= i < s :: RowSum(c.ark[i], i + 1) == 1.0
  {
    if s > 0 {
      var r := s - 1;
      forall j | 0 <= j <= r
        ensures Beside(more, Gain(c, j), 1.0)
      {
        GainsStray(c, more, j);
      }
      GainSumBeside(c, more, r, r);
      GainsStray(c, more, r);
      assert Beside(more, RowSum(c.ark[r], r + 1), 1.0);
      StrayStep(more, GainSum(c, r, r), RowSum(c.ark[r], r), c.ark[r][r], Gain(c, r));
      assert Gain(c, s) == GainSum(c, r, r) + c.ark[r][r] * Gain(c, r);
    }
  }

  lemma StrayStep(more: bool, sum: real, row: real, a: real, g: real)
    requires a > 0.0 && Beside(more, sum, row) && Beside(more, g, 1.0) && Beside(more, row + a, 1.0)
    ensures Beside(more, sum + a * g, 1.0)
    ensures sum + a * g == 1.0 ==> g == 1.0 && row + a == 1.0
  {
    WeightedBeside(more, a, g);
  }

  /** The gain is one exactly when every row sums to one. */
  lemma GainOneIff(c: Scheme, more: bool)
    requires Positive(c) && OneSided(c, more)
    ensures Gain(c, c.nstages) == 1.0 <==> Exact(c)
  {
    GainsStray(c, more, c.nstages);
    if Exact(c) {
      RowSumsGainOne(c, c.nstages);
    }
  }

  // ----- row sums of the twelve schemes -----

  function Entry(row: seq<real>, j: nat): real {
    if j < |row| then row[j] else 0.0
  }

  lemma RowSumOfEight(row: seq<real>)
    requires 0 < |row| <= 8
    ensures RowSum(row, |row|)
            == Entry(row, 0) + Entry(row, 1) + Entry(row, 2) + Entry(row, 3) + Entry(row, 4) + Entry(row, 5)
                                  + Entry(row, 6) + Entry(row, 7)
  {
    assert RowSum(row, 1) == row[0];
    assert |row| >= 2 ==> RowSum(row, 2) == RowSum(row, 1) + row[1];
    assert |row| >= 3 ==> RowSum(row, 3) == RowSum(row, 2) + row[2];
    assert |row| >= 4 ==> RowSum(row, 4) == RowSum(row, 3) + row[3];
    assert |row| >= 5 ==> RowSum(row, 5) == RowSum(row, 4) + row[4];
    assert |row| >= 6 ==> RowSum(row, 6) == RowSum(row, 5) + row[5];
    assert |row| >= 7 ==> RowSum(row, 7) == RowSum(row, 6) + row[6];
    assert |row| >= 8 ==> RowSum(row, 8) == RowSum(row, 7) + row[7];
  }

  lemma RowsEuler()
    ensures Positive(EULER) && OneSided(EULER, true)
    ensures Exact(EULER)
  {
    RowSumOfEight(EULER.ark[0]);
  }

  lemma Rows22()
    ensures Positive(SSP22) && OneSided(SSP22, true)
    ensures Exact(SSP22)
  {
    RowSumOfEight(SSP22.ark[0]);
    RowSumOfEight(SSP22.ark[1]);
  }

  lemma Rows33()
    ensures Positive(SSP33) && OneSided(SSP33, true)
    ensures Exact(SSP33)
  {
    RowSumOfEight(SSP33.ark[0]);
    RowSumOfEight(SSP33.ark[1]);
    RowSumOfEight(SSP33.ark[2]);
  }

  lemma Rows43()
    ensures Positive(SSP43) && OneSided(SSP43, true)
    ensures Exact(SSP43)
  {
    RowSumOfEight(SSP43.ark[0]);
    RowSumOfEight(SSP43.ark[1]);
    RowSumOfEight(SSP43.ark[2]);
    RowSumOfEight(SSP43.ark[3]);
  }

  lemma Rows53()
    ensures Positive(SSP53) && OneSided(SSP53, true)
    ensures RowSum(SSP53.ark[2], 3) != 1.0
  {
    RowSumOfEight(SSP53.ark[0]);
    RowSumOfEight(SSP53.ark[1]);
    RowSumOfEight(SSP53.ark[2]);
    RowSumOfEight(SSP53.ark[3]);
    RowSumOfEight(SSP53.ark[4]);
  }

  lemma Rows63()
    ensures Positive(SSP63) && OneSided(SSP63, true)
    ensures Exact(SSP63)
  {
    RowSumOfEight(SSP63.ark[0]);
    RowSumOfEight(SSP63.ark[1]);
    RowSumOfEight(SSP63.ark[2]);
    RowSumOfEight(SSP63.ark[3]);
    RowSumOfEight(SSP63.ark[4]);
    RowSumOfEight(SSP63.ark[5]);
  }

  lemma Weights73()
    ensures Positive(SSP73)
  {
  }

  lemma Rows73()
    ensures Positive(SSP73) && OneSided(SSP73, false)
    ensures RowSum(SSP73.ark[4], 5) != 1.0
  {
    Weights73();
    RowSumOfEight(SSP73.ark[0]);
    RowSumOfEight(SSP73.ark[1]);
    RowSumOfEight(SSP73.ark[2]);
    RowSumOfEight(SSP73.ark[3]);
    RowSumOfEight(SSP73.ark[4]);
    RowSumOfEight(SSP73.ark[5]);
    RowSumOfEight(SSP73.ark[6]);
  }

  lemma Weights83()
    ensures Positive(SSP83)
  {
  }

  lemma Rows83()
    ensures Positive(SSP83) && OneSided(SSP83, true)
    ensures RowSum(SSP83.ark[4], 5) != 1.0
  {
    Weights83();
    RowSumOfEight(SSP83.ark[0]);
    RowSumOfEight(SSP83.ark[1]);
    RowSumOfEight(SSP83.ark[2]);
    RowSumOfEight(SSP83.ark[3]);
    RowSumOfEight(SSP83.ark[4]);
    RowSumOfEight(SSP83.ark[5]);
    RowSumOfEight(SSP83.ark[6]);
    RowSumOfEight(SSP83.ark[7]);
  }

  lemma Rows54()
    ensures Positive(SSP54) && OneSided(SSP54, false)
    ensures RowSum(SSP54.ark[4], 5) != 1.0
  {
    RowSumOfEight(SSP54.ark[0]);
    RowSumOfEight(SSP54.ark[1]);
    RowSumOfEight(SSP54.ark[2]);
    RowSumOfEight(SSP54.ark[3]);
    RowSumOfEight(SSP54.ark[4]);
  }

  lemma Rows64()
    ensures Positive(SSP64) && OneSided(SSP64, false)
    ensures RowSum(SSP64.ark[5], 6) != 1.0
  {
    RowSumOfEight(SSP64.ark[0]);
    RowSumOfEight(SSP64.ark[1]);
    RowSumOfEight(SSP64.ark[2]);
    RowSumOfEight(SSP64.ark[3]);
    RowSumOfEight(SSP64.ark[4]);
    RowSumOfEight(SSP64.ark[5]);
  }

  lemma Weights74()
    ensures Positive(SSP74)
  {
  }

  lemma Rows74()
    ensures Positive(SSP74) && OneSided(SSP74, true)
    ensures Exact(SSP74)
  {
    Weights74();
    RowSumOfEight(SSP74.ark[0]);
    RowSumOfEight(SSP74.ark[1]);
    RowSumOfEight(SSP74.ark[2]);
    RowSumOfEight(SSP74.ark[3]);
    RowSumOfEight(SSP74.ark[4]);
    RowSumOfEight(SSP74.ark[5]);
    RowSumOfEight(SSP74.ark[6]);
  }

  lemma Weights84()
    ensures Positive(SSP84)
  {
  }

  lemma Rows84()
    ensures Positive(SSP84) && OneSided(SSP84, true)
    ensures Exact(SSP84)
  {
    Weights84();
    RowSumOfEight(SSP84.ark[0]);
    RowSumOfEight(SSP84.ark[1]);
    RowSumOfEight(SSP84.ark[2]);
    RowSumOfEight(SSP84.ark[3]);
    RowSumOfEight(SSP84.ark[4]);
    RowSumOfEight(SSP84.ark[5]);
    RowSumOfEight(SSP84.ark[6]);
    RowSumOfEight(SSP84.ark[7]);
  }

  /** The schemes whose decimals do not sum to one in every row. */
  predicate Rounded(nstages: nat, order: nat) {
    (order == 3 && (nstages == 5 || nstages == 7 || nstages == 8)) || (order == 4 && (nstages == 5 || nstages == 6))
  }

  lemma SchemeRows(nstages: nat, order: nat) returns (more: bool)
    requires SchemeOf(nstages, order).Some?
    ensures var c := SchemeOf(nstages, order).scheme;
            Positive(c) && OneSided(c, more) && (Exact(c) <==> !Rounded(nstages, order))
  {
    more := !(order == 4 && nstages < 7) && !(order == 3 && nstages == 7);
    if nstages == 1 && order == 1 {
      RowsEuler();
    } else if nstages == 2 && order == 2 {
      Rows22();
    } else if nstages == 3 && order == 3 {
      Rows33();
    } else if nstages == 4 && order == 3 {
      Rows43();
    } else if nstages == 5 && order == 3 {
      Rows53();
    } else if nstages == 6 && order == 3 {
      Rows63();
    } else if nstages == 7 && order == 3 {
      Rows73();
    } else if nstages == 8 && order == 3 {
      Rows83();
    } else if nstages == 5 && order == 4 {
      Rows54();
    } else if nstages == 6 && order == 4 {
      Rows64();
    } else if nstages == 7 && order == 4 {
      Rows74();
    } else {
      Rows84();
    }
  }

  // ----- main results -----

  /**
   Over runs with any scheme: a total with zero rate is conserved exactly unless the scheme is rounded and the total
   not zero.
   */
  lemma SchemeConservesIff(nstages: nat, order: nat, dt: real, weights: Vec, n: nat, run: seq<seq<StageData>>,
                           filled: seq<seq<StageData>>)
    requires SchemeOf(nstages, order).Some?
    requires var c := SchemeOf(nstages, order).scheme;
             && IsRun(c, dt, n, run, filled) && nstages < |run|
             && forall j | 0 <= j < |filled| :: Still(weights, n, filled[j][StageOf(c, j)])
    ensures (forall k | 0 <= k < |run| :: Total(weights, run[k][0].q, n) == Total(weights, run[0][0].q, n))
       <==> !Rounded(nstages, order) || Total(weights, run[0][0].q, n) == 0.0
  {
    var c := SchemeOf(nstages, order).scheme;
    var more := SchemeRows(nstages, order);
    GainOneIff(c, more);
    RunConservedIff(c, dt, weights, n, run, filled);
  }

  /** The diagonal weights of row i allow the smallest step of all weights. */
  ghost predicate Tightest(c: Scheme, i: nat)
    requires c.Valid() && i < c.nstages
  {
    && c.brk[i][i] > 0.0
    && forall k, j | 0 <= k < c.nstages && 0 <= j <= k ::
         0.0 <= c.brk[k][j] && Times(c.brk[k][j], c.ark[i][i]) <= Times(c.ark[k][j], c.brk[i][i])
  }

  lemma WeightAllows(dt: real, tau: real, a: real, b: real, a': real, b': real)
    requires dt >= 0.0 && dt * b <= tau * a && a > 0.0 && b > 0.0 && 0.0 <= b' && a' >= 0.0
    requires Times(b', a) <= Times(a', b)
    ensures 0.0 <= dt * b' <= tau * a'
  {
    assert dt * (b' * a) <= dt * (a' * b);
    assert a' * (dt * b) <= a' * (tau * a);
    Cancel(dt * b', tau * a', a);
  }

  lemma Cancel(x: real, y: real, a: real)
    requires a > 0.0 && x * a <= y * a
    ensures x <= y
  {
    assert y - x == ((y - x) * a) / a;
  }

  /** With exact rows, the step bound is decided by the tightest weights alone. */
  lemma TightestDecides(c: Scheme, i: nat, dt: real, tau: real)
    requires Positive(c) && Exact(c) && i < c.nstages && Tightest(c, i) && dt >= 0.0
    ensures KeepsBounds(c, dt, tau) <==> dt * c.brk[i][i] <= tau * c.ark[i][i]
  {
    if KeepsBounds(c, dt, tau) {
      assert ConvexRow(c, dt, tau, i) && Reach(c, dt, i, i) == dt * c.brk[i][i];
    }
    if dt * c.brk[i][i] <= tau * c.ark[i][i] {
      forall k | 0 <= k < c.nstages
        ensures ConvexRow(c, dt, tau, k)
      {
        forall j | 0 <= j <= k
          ensures 0.0 <= Reach(c, dt, k, j) <= tau * c.ark[k][j]
        {
          WeightAllows(dt, tau, c.ark[i][i], c.brk[i][i], c.ark[k][j], c.brk[k][j]);
        }
      }
    }
  }

  lemma InexactKeepsNoBounds(c: Scheme, dt: real, tau: real)
    requires c.Valid() && !Exact(c)
    ensures !KeepsBounds(c, dt, tau)
  {
    var i :| 0 <= i < c.nstages && RowSum(c.ark[i], i + 1) != 1.0;
    assert !ConvexRow(c, dt, tau, i);
  }

  /** The row with the tightest weights. */
  function TightRow(nstages: nat, order: nat): (i: nat)
    ensures SchemeOf(nstages, order).Some? ==> i < nstages == SchemeOf(nstages, order).scheme.nstages
  {
    if nstages == 6 && order == 3 then 3
    else if nstages == 7 && order == 4 then 3
    else if nstages == 8 && order == 4 then 4
    else 0
  }

  lemma TightEuler()
    ensures EULER.Valid() && Tightest(EULER, 0)
  {
  }

  lemma Tight22()
    ensures SSP22.Valid() && Tightest(SSP22, 0)
  {
  }

  lemma Tight33()
    ensures SSP33.Valid() && Tightest(SSP33, 0)
  {
  }

  lemma Tight43()
    ensures SSP43.Valid() && Tightest(SSP43, 0)
  {
  }

  lemma Tight63()
    ensures SSP63.Valid() && Tightest(SSP63, 3)
  {
  }

  lemma Tight74()
    ensures SSP74.Valid() && Tightest(SSP74, 3)
  {
  }

  lemma Tight84()
    ensures SSP84.Valid() && Tightest(SSP84, 4)
  {
  }

  lemma SchemeTightest(nstages: nat, order: nat)
    requires SchemeOf(nstages, order).Some? && !Rounded(nstages, order)
    ensures var c := SchemeOf(nstages, order).scheme;
            c.Valid() && TightRow(nstages, order) < c.nstages && Tightest(c, TightRow(nstages, order))
  {
    if nstages == 1 && order == 1 {
      TightEuler();
    } else if nstages == 2 && order == 2 {
      Tight22();
    } else if nstages == 3 && order == 3 {
      Tight33();
    } else if nstages == 4 && order == 3 {
      Tight43();
    } else if nstages == 6 && order == 3 {
      Tight63();
    } else if nstages == 7 && order == 4 {
      Tight74();
    } else {
      Tight84();
    }
  }

  /** The diagonal weights of row i allow a step of dt where Euler steps up to tau are allowed. */
  predicate Allows(c: Scheme, i: nat, dt: real, tau: real)
    requires c.Valid() && i < c.nstages
  {
    dt * c.brk[i][i] <= tau * c.ark[i][i]
  }

  lemma BoundsIff(c: Scheme, rounded: bool, i: nat, dt: real, tau: real)
    requires Positive(c) && (Exact(c) <==> !rounded) && i < c.nstages && (!rounded ==> Tightest(c, i)) && dt >= 0.0
    ensures KeepsBounds(c, dt, tau) <==> !rounded && Allows(c, i, dt, tau)
  {
    if rounded {
      InexactKeepsNoBounds(c, dt, tau);
    } else {
      TightestDecides(c, i, dt, tau);
    }
  }

  /**
   The bound condition holds exactly for schemes that are not rounded, with steps that their tightest weights allow.
   */
  lemma SchemeKeepsBoundsIff(nstages: nat, order: nat, dt: real, tau: real)
    requires SchemeOf(nstages, order).Some? && dt >= 0.0
    ensures var c, i := SchemeOf(nstages, order).scheme, TightRow(nstages, order);
            && c.Valid() && i < c.nstages
            && (KeepsBounds(c, dt, tau) <==> !Rounded(nstages, order) && Allows(c, i, dt, tau))
  {
    var more := SchemeRows(nstages, order);
    if !Rounded(nstages, order) {
      SchemeTightest(nstages, order);
    }
    BoundsIff(SchemeOf(nstages, order).scheme, Rounded(nstages, order), TightRow(nstages, order), dt, tau);
  }

  /** For the schemes up to four stages that is the step of Euler's method, or twice that. */
  lemma ShortSchemesAllow(nstages: nat, order: nat, dt: real, tau: real)
    requires SchemeOf(nstages, order).Some? && nstages <= 4 && dt >= 0.0
    ensures var c := SchemeOf(nstages, order).scheme;
            c.Valid() && (KeepsBounds(c, dt, tau) <==> dt <= (if nstages == 4 then 2.0 * tau else tau))
  {
    SchemeKeepsBoundsIff(nstages, order, dt, tau);
    ShortAllows(SchemeOf(nstages, order).scheme, dt, tau);
  }

  lemma ShortAllows(c: Scheme, dt: real, tau: real)
    requires c == EULER || c == SSP22 || c == SSP33 || c == SSP43
    ensures c.Valid() && (Allows(c, 0, dt, tau) <==> dt <= (if c == SSP43 then 2.0 * tau else tau))
  {
  }
}
