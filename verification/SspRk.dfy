/**
 The strong-stability-preserving Runge-Kutta stepper: the stage update with its final swap, what whole runs keep,
 and the bookkeeping of stages, steps and time.  Arithmetic is over the reals.
 */
module SspRk {
  import opened Reals

  type Vec = seq<real>

  /** One entry of an element's stage array. */
  datatype StageData = StageData(q: Vec, solution: Vec)

  /** Coefficient tables: row i has i + 1 entries. */
  datatype Scheme = Scheme(nstages: nat, ark: seq<seq<real>>, brk: seq<seq<real>>) {
    predicate Valid() {
      && nstages > 0 && |ark| == |brk| == nstages
      && forall i | 0 <= i < nstages :: |ark[i]| == |brk[i]| == i + 1
    }
  }

  function Zero(n: nat): (v: Vec)
    ensures |v| == n
  {
    seq(n, _ => 0.0)
  }

  function Component(v: Vec, i: nat): real {
    if i < |v| then v[i] else 0.0
  }

  /** acc + a q + h s, component by component. */
  function AddTerm(acc: Vec, a: real, q: Vec, h: real, s: Vec): (v: Vec)
    ensures |v| == |acc|
  {
    seq(|acc|, i requires 0 <= i < |acc| => acc[i] + (a * Component(q, i) + h * Component(s, i)))
  }

  /** The length of the Euler step hidden in term s of a stage. */
  function Reach(c: Scheme, dt: real, stage: nat, s: nat): real
    requires c.Valid() && s <= stage < c.nstages
  {
    dt * c.brk[stage][s]
  }

  /** The first k terms of the next stage. */
  function Combination(c: Scheme, dt: real, state: seq<StageData>, stage: nat, n: nat, k: nat): (v: Vec)
    requires c.Valid() && stage < c.nstages && k <= stage + 1 <= |state|
    ensures |v| == n
  {
    if k == 0 then Zero(n) else
      AddTerm(Combination(c, dt, state, stage, n, k - 1), c.ark[stage][k - 1], state[k - 1].q,
              Reach(c, dt, stage, k - 1), state[k - 1].solution)
  }

  /** Swaps the values of the first and the last entry. */
  function Swapped(state: seq<StageData>, last: nat): (s: seq<StageData>)
    requires 0 < last < |state|
    ensures |s| == |state|
  {
    state[0 := state[0].(q := state[last].q)][last := state[last].(q := state[0].q)]
  }

  /** The stage array after stage `stage`. */
  function Updated(c: Scheme, dt: real, stage: nat, state: seq<StageData>): (s: seq<StageData>)
    requires c.Valid() && stage < c.nstages && |state| == c.nstages + 1
    ensures |s| == |state|
  {
    var next := Combination(c, dt, state, stage, |state[stage + 1].q|, stage + 1);
    var filled := state[stage + 1 := state[stage + 1].(q := next)];
    if stage + 1 == c.nstages then Swapped(filled, c.nstages) else filled
  }

  class Element {
    var state: seq<StageData>
  }

  /** What the stepper writes to a checkpoint. */
  datatype Archive = Archive(order: nat, nstages: nat, dt: real, stage: nat, timestamp: nat, t: real)

  class ESSPRKStepper {
    var order: nat
    var c: Scheme
    var dt: real
    var step: nat
    var stage: nat
    var timestamp: nat
    var t: real

    /** The stages done so far are those of the whole steps and the current ones. */
    ghost predicate Valid()
      reads this
    {
      c.Valid() && stage < c.nstages && timestamp == step * c.nstages + stage
    }

    /** Time is that of the last whole step; it stays so while dt stays the same. */
    ghost predicate OnTime()
      reads this
    {
      t == step as real * dt
    }

    constructor (order: nat, c: Scheme, dt: real)
      requires c.Valid()
      ensures Valid() && OnTime() && this.c == c && this.order == order && this.dt == dt && timestamp == 0
    {
      this.order, this.c, this.dt := order, c, dt;
      step, stage, timestamp, t := 0, 0, 0, 0.0;
    }

    method SetDT(dt: real)
      modifies `dt
      ensures this.dt == dt
    {
      this.dt := dt;
    }

    /** operator++ */
    method Advance()
      requires Valid()
      modifies `step, `stage, `timestamp, `t
      ensures Valid() && timestamp == old(timestamp) + 1 && (old(OnTime()) ==> OnTime())
      ensures stage == if old(stage) + 1 == c.nstages then 0 else old(stage) + 1
      ensures step == if old(stage) + 1 == c.nstages then old(step) + 1 else old(step)
      ensures t == if old(stage) + 1 == c.nstages then old(t) + dt else old(t)
    {
      NextStep(step, c.nstages, dt);
      stage := stage + 1;
      timestamp := timestamp + 1;
      NextStage(stage, c.nstages);
      stage := stage % c.nstages;
      if stage == 0 {
        t := t + dt;
        step := step + 1;
      }
    }

    method UpdateState(elt: Element)
      requires Valid() && |elt.state| == c.nstages + 1
      modifies elt
      ensures elt.state == Updated(c, dt, stage, old(elt.state))
    {
      var next := stage + 1;
      ghost var before, n := elt.state, |elt.state[next].q|;
      elt.state := elt.state[next := elt.state[next].(q := Zero(|elt.state[next].q|))];
      for s := 0 to stage + 1
        invariant elt.state == before[next := before[next].(q := Combination(c, dt, before, stage, n, s))]
      {
        elt.state := elt.state[next := elt.state[next].(
          q := AddTerm(elt.state[next].q, c.ark[stage][s], elt.state[s].q, Reach(c, dt, stage, s),
                       elt.state[s].solution))];
      }
      if stage + 1 == c.nstages {
        elt.state := Swapped(elt.state, c.nstages);
      }
    }

    method Save() returns (a: Archive)
      requires Valid()
      ensures a == Archive(order, c.nstages, dt, stage, timestamp, t)
    {
      a := Archive(order, c.nstages, dt, stage, timestamp, t);
    }

    /**
     A checkpoint holds no step count: it is computed back.  The tables depend on order and number of stages alone.
     */
    method Load(a: Archive, tables: Scheme)
      requires tables.Valid() && tables.nstages == a.nstages
      modifies this
      ensures order == a.order && c == tables && dt == a.dt && stage == a.stage && timestamp == a.timestamp && t == a.t
      ensures step == a.timestamp / a.nstages
    {
      order, dt, stage, timestamp, t := a.order, a.dt, a.stage, a.timestamp, a.t;
      step := timestamp / a.nstages;
      c := tables;
    }
  }

  lemma NextStage(x: nat, n: nat)
    requires 0 < x <= n
    ensures x % n == if x == n then 0 else x
  {
  }

  lemma NextStep(step: nat, nstages: nat, dt: real)
    ensures (step + 1) * nstages == step * nstages + nstages
    ensures (step + 1) as real * dt == step as real * dt + dt
  {
  }

  /** The step count that Load computes is the one the saved stepper had. */
  lemma LoadRecoversStep(step: nat, stage: nat, nstages: nat)
    requires stage < nstages
    ensures (step * nstages + stage) / nstages == step && (step * nstages + stage) % nstages == stage
  {
    var q, r := (step * nstages + stage) / nstages, (step * nstages + stage) % nstages;
    assert nstages * (q - step) == stage - r;
    if q != step {
      MultipleIsFar(nstages, q - step);
    }
  }

  lemma MultipleIsFar(n: int, d: int)
    requires d != 0 && n > 0
    ensures n * d >= n || n * d <= -n
  {
    if d > 0 {
      assert n * (d - 1) >= 0;
    } else {
      assert n * (-d - 1) >= 0;
    }
  }

  // ----- convex bounds -----

  function Mix(l: real, x: Vec, y: Vec): (v: Vec)
    requires |x| == |y|
    ensures |v| == |x|
  {
    seq(|x|, i requires 0 <= i < |x| => l * x[i] + (1.0 - l) * y[i])
  }

  ghost predicate Convex(bound: Vec -> bool, n: nat) {
    forall l: real, x, y | |x| == |y| == n && bound(x) && bound(y) && 0.0 <= l <= 1.0 :: bound(Mix(l, x, y))
  }

  /** A forward Euler step of length h. */
  function Euler(d: StageData, h: real): (v: Vec)
    ensures |v| == |d.q|
  {
    seq(|d.q|, i requires 0 <= i < |d.q| => d.q[i] + h * Component(d.solution, i))
  }

  /** Forward Euler steps up to tau stay inside the bound. */
  ghost predicate EulerKept(bound: Vec -> bool, tau: real, d: StageData) {
    forall h: real | 0.0 <= h <= tau :: bound(Euler(d, h))
  }

  /** Row `stage` of the tables is a convex combination of admissible Euler steps. */
  ghost predicate ConvexRow(c: Scheme, dt: real, tau: real, stage: nat)
    requires c.Valid() && stage < c.nstages
  {
    && (forall s | 0 <= s <= stage :: c.ark[stage][s] >= 0.0 && 0.0 <= Reach(c, dt, stage, s) <= tau * c.ark[stage][s])
    && RowSum(c.ark[stage], stage + 1) == 1.0
  }

  function RowSum(row: seq<real>, k: nat): real
    requires k <= |row|
  {
    if k == 0 then 0.0 else RowSum(row, k - 1) + row[k - 1]
  }

  function Scaled(v: Vec, f: real): (r: Vec)
    ensures |r| == |v|
  {
    seq(|v|, i requires 0 <= i < |v| => f * v[i])
  }

  lemma TermIsEulerStep(a: real, b: real, q: real, s: real)
    requires a > 0.0
    ensures a * (q + (b / a) * s) == a * q + b * s
  {
    assert a * (b / a) == b;
  }

  /** One component of a weighted mean extended by one more value. */
  lemma MeanExtends(w: real, a: real, x: real, y: real)
    requires w > 0.0 && a > 0.0
    ensures (1.0 / (w + a)) * (x + a * y) == (w / (w + a)) * ((1.0 / w) * x) + (1.0 - w / (w + a)) * y
  {
    var z := 1.0 / (w + a);
    assert w / (w + a) == w * z && (w + a) * z == 1.0;
    assert 1.0 - w * z == a * z;
    assert w * z * ((1.0 / w) * x) == z * x * (w * (1.0 / w));
  }

  /** A non-zero term weighs in an Euler step; a zero one adds nothing. */
  lemma StepSize(a: real, b: real, tau: real)
    requires a >= 0.0 && 0.0 <= b <= tau * a
    ensures a > 0.0 ==> 0.0 <= b / a <= tau
    ensures a == 0.0 ==> b == 0.0
  {
    if a > 0.0 {
      assert tau - b / a == (tau * a - b) / a;
    }
  }

  /** The partial sums of a stage: nothing yet, or a weight times a vector inside the bound. */
  ghost predicate WeighsIn(bound: Vec -> bool, v: Vec, weight: real) {
    if weight == 0.0 then forall i | 0 <= i < |v| :: v[i] == 0.0
    else weight > 0.0 && bound(Scaled(v, 1.0 / weight))
  }

  /** Adding one term keeps the partial sum a multiple of something inside the bound. */
  lemma TermKeepsBound(bound: Vec -> bool, n: nat, tau: real, acc: Vec, w: real, a: real, b: real, d: StageData)
    requires Convex(bound, n) && |acc| == n == |d.q| && EulerKept(bound, tau, d) && tau >= 0.0
    requires w >= 0.0 && a >= 0.0 && 0.0 <= b <= tau * a && WeighsIn(bound, acc, w)
    ensures WeighsIn(bound, AddTerm(acc, a, d.q, b, d.solution), w + a)
  {
    var v := AddTerm(acc, a, d.q, b, d.solution);
    StepSize(a, b, tau);
    if a == 0.0 {
      assert v == acc;
    } else {
      var y := Euler(d, b / a);
      forall i | 0 <= i < n
        ensures v[i] == acc[i] + a * y[i]
      {
        TermIsEulerStep(a, b, d.q[i], Component(d.solution, i));
      }
      if w == 0.0 {
        forall i | 0 <= i < n
          ensures Scaled(v, 1.0 / a)[i] == y[i]
        {
          assert (1.0 / a) * (a * y[i]) == y[i];
        }
        assert Scaled(v, 1.0 / a) == y;
      } else {
        ShareIsFraction(w, a);
        var mixed := Mix(w / (w + a), Scaled(acc, 1.0 / w), y);
        forall i | 0 <= i < n
          ensures Scaled(v, 1.0 / (w + a))[i] == mixed[i]
        {
          MeanExtends(w, a, acc[i], y[i]);
        }
        assert Scaled(v, 1.0 / (w + a)) == mixed;
      }
    }
  }

  lemma ShareIsFraction(w: real, a: real)
    requires w > 0.0 && a > 0.0
    ensures 0.0 <= w / (w + a) <= 1.0
  {
    var z := 1.0 / (w + a);
    assert w / (w + a) == w * z && (w + a) * z == 1.0;
    assert w * z >= 0.0 && a * z >= 0.0;
  }

  lemma {:induction false} PartialSumKeepsBound(c: Scheme, dt: real, tau: real, bound: Vec -> bool, n: nat,
                                                state: seq<StageData>, stage: nat, k: nat)
    requires c.Valid() && stage < c.nstages && k <= stage + 1 <= |state| && tau >= 0.0
    requires ConvexRow(c, dt, tau, stage) && Convex(bound, n)
    requires forall s | 0 <= s <= stage :: |state[s].q| == n && EulerKept(bound, tau, state[s])
    ensures RowSum(c.ark[stage], k) >= 0.0
    ensures WeighsIn(bound, Combination(c, dt, state, stage, n, k), RowSum(c.ark[stage], k))
  {
    if k > 0 {
      PartialSumKeepsBound(c, dt, tau, bound, n, state, stage, k - 1);
      assert RowSum(c.ark[stage], k) == RowSum(c.ark[stage], k - 1) + c.ark[stage][k - 1];
      TermKeepsBound(bound, n, tau, Combination(c, dt, state, stage, n, k - 1), RowSum(c.ark[stage], k - 1),
                     c.ark[stage][k - 1], Reach(c, dt, stage, k - 1), state[k - 1]);
    }
  }

  /** Every stage keeps every convex bound that short forward Euler steps keep. */
  lemma StageKeepsBound(c: Scheme, dt: real, tau: real, bound: Vec -> bool, n: nat, state: seq<StageData>, stage: nat)
    requires c.Valid() && stage < c.nstages && stage + 1 <= |state| && tau >= 0.0
    requires ConvexRow(c, dt, tau, stage) && Convex(bound, n)
    requires forall s | 0 <= s <= stage :: |state[s].q| == n && EulerKept(bound, tau, state[s])
    ensures bound(Combination(c, dt, state, stage, n, stage + 1))
  {
    PartialSumKeepsBound(c, dt, tau, bound, n, state, stage, stage + 1);
    FullWeight(bound, Combination(c, dt, state, stage, n, stage + 1));
  }

  lemma FullWeight(bound: Vec -> bool, v: Vec)
    requires WeighsIn(bound, v, 1.0)
    ensures bound(v)
  {
    assert Scaled(v, 1.0 / 1.0) == v;
  }

  // ----- whole runs -----

  /** The stage a run is in after k updates. */
  function StageOf(c: Scheme, k: nat): (stage: nat)
    requires c.Valid()
    ensures stage < c.nstages
  {
    k % c.nstages
  }

  /** The kernels fill in the solution of the current stage; other entries stay. */
  ghost predicate Fills(before: seq<StageData>, stage: nat, filled: seq<StageData>) {
    && |filled| == |before| && stage < |before|
    && (forall s | 0 <= s < |before| :: filled[s].q == before[s].q && (s != stage ==> filled[s] == before[s]))
  }

  /** `filled[k]` is the stage array after the kernels of update k, `run[k + 1]` after its UpdateState. */
  ghost predicate IsRun(c: Scheme, dt: real, n: nat, run: seq<seq<StageData>>, filled: seq<seq<StageData>>) {
    && c.Valid() && |run| == |filled| + 1
    && (forall k | 0 <= k < |run| :: |run[k]| == c.nstages + 1 && forall s | 0 <= s <= c.nstages :: |run[k][s].q| == n)
    && (forall k | 0 <= k < |filled| :: Fills(run[k], StageOf(c, k), filled[k])
                                     && run[k + 1] == Updated(c, dt, StageOf(c, k), filled[k]))
  }

  lemma StageAdvances(c: Scheme, k: nat)
    requires c.Valid()
    ensures StageOf(c, k + 1) == if StageOf(c, k) + 1 == c.nstages then 0 else StageOf(c, k) + 1
  {
    var n, q, r := c.nstages, k / c.nstages, k % c.nstages;
    assert k == q * n + r;
    if r + 1 == n {
      NextStep(q, n, 0.0);
      LoadRecoversStep(q + 1, 0, n);
    } else {
      LoadRecoversStep(q, r + 1, n);
    }
  }

  /** Entries up to the current stage are inside the bound, and those before it had admissible solutions. */
  ghost predicate Inside(bound: Vec -> bool, tau: real, state: seq<StageData>, stage: nat) {
    && stage < |state|
    && (forall s | 0 <= s <= stage :: bound(state[s].q))
    && (forall s | 0 <= s < stage :: EulerKept(bound, tau, state[s]))
  }

  /** Update k writes the next stage, or, after the last one, the step's result into entry 0. */
  lemma UpdateKeepsInside(c: Scheme, dt: real, tau: real, bound: Vec -> bool, n: nat, state: seq<StageData>, stage: nat)
    requires c.Valid() && stage < c.nstages && |state| == c.nstages + 1 && tau >= 0.0
    requires ConvexRow(c, dt, tau, stage) && Convex(bound, n)
    requires forall s | 0 <= s < |state| :: |state[s].q| == n
    requires forall s | 0 <= s <= stage :: bound(state[s].q) && EulerKept(bound, tau, state[s])
    ensures Inside(bound, tau, Updated(c, dt, stage, state), if stage + 1 == c.nstages then 0 else stage + 1)
  {
    StageKeepsBound(c, dt, tau, bound, n, state, stage);
  }

  /**
   In a run of any length, if the kernels always deliver solutions whose short Euler steps keep a convex bound, then
   every stage value, and with it every completed step, keeps it.
   */
  lemma {:induction false} RunKeepsBound(c: Scheme, dt: real, tau: real, bound: Vec -> bool, n: nat,
                                         run: seq<seq<StageData>>, filled: seq<seq<StageData>>, k: nat)
    requires IsRun(c, dt, n, run, filled) && k < |run| && tau >= 0.0 && Convex(bound, n)
    requires forall stage | 0 <= stage < c.nstages :: ConvexRow(c, dt, tau, stage)
    requires bound(run[0][0].q)
    requires forall j | 0 <= j < |filled| && bound(run[j][StageOf(c, j)].q) ::
               EulerKept(bound, tau, filled[j][StageOf(c, j)])
    ensures Inside(bound, tau, run[k], StageOf(c, k))
  {
    if k > 0 {
      var j := k - 1;
      RunKeepsBound(c, dt, tau, bound, n, run, filled, j);
      StageAdvances(c, j);
      UpdateKeepsInside(c, dt, tau, bound, n, filled[j], StageOf(c, j));
      assert run[j + 1] == Updated(c, dt, StageOf(c, j), filled[j]);
    }
  }

  // ----- conserved totals -----

  /** A linear functional. */
  function Total(weights: Vec, v: Vec, k: nat): real
    requires k <= |v|
  {
    if k == 0 then 0.0 else Total(weights, v, k - 1) + Component(weights, k - 1) * v[k - 1]
  }

  /** What a stage makes of a total that the solutions leave alone: entry s of a step holds Gain(s) times entry 0. */
  function Gain(c: Scheme, s: nat): real
    requires c.Valid() && s <= c.nstages
    decreases s, 0
  {
    if s == 0 then 1.0 else GainSum(c, s - 1, s)
  }

  function GainSum(c: Scheme, stage: nat, k: nat): real
    requires c.Valid() && stage < c.nstages && k <= stage + 1
    decreases stage, 1, k
  {
    if k == 0 then 0.0 else GainSum(c, stage, k - 1) + c.ark[stage][k - 1] * Gain(c, k - 1)
  }

  lemma {:induction false} TotalOfZero(weights: Vec, n: nat, k: nat)
    requires k <= n
    ensures Total(weights, Zero(n), k) == 0.0
  {
    if k > 0 {
      TotalOfZero(weights, n, k - 1);
    }
  }

  lemma {:induction false} TotalOfTerm(weights: Vec, acc: Vec, a: real, q: Vec, h: real, s: Vec, k: nat)
    requires k <= |acc| == |q| == |s|
    ensures Total(weights, AddTerm(acc, a, q, h, s), k)
            == Total(weights, acc, k) + a * Total(weights, q, k) + h * Total(weights, s, k)
  {
    if k > 0 {
      TotalOfTerm(weights, acc, a, q, h, s, k - 1);
      var w := Component(weights, k - 1);
      assert w * (acc[k - 1] + (a * q[k - 1] + h * s[k - 1]))
             == w * acc[k - 1] + a * (w * q[k - 1]) + h * (w * s[k - 1]);
    }
  }

  /** The total of entry s of a step that started with total t0. */
  ghost predicate Carries(c: Scheme, weights: Vec, n: nat, state: seq<StageData>, stage: nat, t0: real)
    requires c.Valid() && stage < c.nstages
  {
    stage < |state| && forall s | 0 <= s <= stage ::
          |state[s].q| == n && Total(weights, state[s].q, n) == Times(Gain(c, s), t0)
  }

  /** Solutions with total rate zero. */
  ghost predicate Still(weights: Vec, n: nat, d: StageData) {
    |d.q| == |d.solution| == n && Total(weights, d.solution, n) == 0.0
  }

  lemma {:induction false} CombinationTotal(c: Scheme, dt: real, weights: Vec, n: nat, state: seq<StageData>,
                                            stage: nat,
                                            t0: real, k: nat)
    requires c.Valid() && stage < c.nstages && k <= stage + 1 <= |state| && Carries(c, weights, n, state, stage, t0)
    requires forall s | 0 <= s <= stage :: Still(weights, n, state[s])
    ensures Total(weights, Combination(c, dt, state, stage, n, k), n) == Times(GainSum(c, stage, k), t0)
  {
    if k == 0 {
      TotalOfZero(weights, n, n);
    } else {
      CombinationTotal(c, dt, weights, n, state, stage, t0, k - 1);
      var d := state[k - 1];
      TotalOfTerm(weights, Combination(c, dt, state, stage, n, k - 1), c.ark[stage][k - 1], d.q,
                  Reach(c, dt, stage, k - 1), d.solution, n);
      Distribute(GainSum(c, stage, k - 1), c.ark[stage][k - 1], Gain(c, k - 1), t0, Reach(c, dt, stage, k - 1));
    }
  }

  lemma Distribute(x: real, a: real, g: real, t0: real, h: real)
    ensures Times(x, t0) + a * Times(g, t0) + h * 0.0 == Times(x + a * g, t0)
  {
  }

  /** All of a step's entries before the current one are still, and carry the step's total. */
  ghost predicate StepCarries(c: Scheme, weights: Vec, n: nat, state: seq<StageData>, stage: nat, t0: real)
    requires c.Valid() && stage < c.nstages
  {
    Carries(c, weights, n, state, stage, t0) && forall s | 0 <= s < stage :: Still(weights, n, state[s])
  }

  /** The total a run holds after k updates, at the start of its current step. */
  function StartTotal(c: Scheme, t0: real, k: nat): real
    requires c.Valid()
  {
    if k == 0 then t0
    else if StageOf(c, k) == 0 then Times(Gain(c, c.nstages), StartTotal(c, t0, k - 1))
    else StartTotal(c, t0, k - 1)
  }

  lemma UpdateCarries(c: Scheme, dt: real, weights: Vec, n: nat, state: seq<StageData>, stage: nat, t0: real)
    requires c.Valid() && stage < c.nstages && |state| == c.nstages + 1
    requires forall s | 0 <= s < |state| :: |state[s].q| == n
    requires Carries(c, weights, n, state, stage, t0) && forall s | 0 <= s <= stage :: Still(weights, n, state[s])
    ensures if stage + 1 == c.nstages
            then StepCarries(c, weights, n, Updated(c, dt, stage, state), 0, Times(Gain(c, c.nstages), t0))
            else StepCarries(c, weights, n, Updated(c, dt, stage, state), stage + 1, t0)
  {
    NextCarries(c, dt, weights, n, state, stage, t0);
    var state', next := Updated(c, dt, stage, state), Combination(c, dt, state, stage, n, stage + 1);
    if stage + 1 == c.nstages {
      assert state'[0].q == next;
      TimesOne(Times(Gain(c, c.nstages), t0));
    } else {
      assert state'[stage + 1].q == next && forall s | 0 <= s <= stage :: state'[s] == state[s];
    }
  }

  lemma NextCarries(c: Scheme, dt: real, weights: Vec, n: nat, state: seq<StageData>, stage: nat, t0: real)
    requires c.Valid() && stage < c.nstages && |state| == c.nstages + 1
    requires Carries(c, weights, n, state, stage, t0) && forall s | 0 <= s <= stage :: Still(weights, n, state[s])
    ensures Total(weights, Combination(c, dt, state, stage, n, stage + 1), n) == Times(Gain(c, stage + 1), t0)
  {
    CombinationTotal(c, dt, weights, n, state, stage, t0, stage + 1);
    assert Gain(c, stage + 1) == GainSum(c, stage, stage + 1);
  }

  /** Over a run of any length, each step multiplies every total with zero rate by the gain of the tables. */
  lemma {:induction false} RunCarries(c: Scheme, dt: real, weights: Vec, n: nat, run: seq<seq<StageData>>,
                                      filled: seq<seq<StageData>>, k: nat)
    requires IsRun(c, dt, n, run, filled) && k < |run|
    requires forall j | 0 <= j < |filled| :: Still(weights, n, filled[j][StageOf(c, j)])
    ensures StepCarries(c, weights, n, run[k], StageOf(c, k), StartTotal(c, Total(weights, run[0][0].q, n), k))
  {
    if k > 0 {
      var j := k - 1;
      RunCarries(c, dt, weights, n, run, filled, j);
      StageAdvances(c, j);
      UpdateCarries(c, dt, weights, n, filled[j], StageOf(c, j), StartTotal(c, Total(weights, run[0][0].q, n), j));
      assert run[j + 1] == Updated(c, dt, StageOf(c, j), filled[j]);
    }
  }

  /** Rows that sum to one gain nothing. */
  lemma {:induction false} RowSumsGainOne(c: Scheme, s: nat)
    requires c.Valid() && s <= c.nstages && forall i | 0 <= i < c.nstages :: RowSum(c.ark[i], i + 1) == 1.0
    ensures Gain(c, s) == 1.0
  {
    if s > 0 {
      GainSumIsRowSum(c, s - 1, s);
    }
  }

  lemma {:induction false} GainSumIsRowSum(c: Scheme, stage: nat, k: nat)
    requires c.Valid() && stage < c.nstages && k <= stage + 1
    requires forall i | 0 <= i < c.nstages :: RowSum(c.ark[i], i + 1) == 1.0
    ensures GainSum(c, stage, k) == RowSum(c.ark[stage], k)
    decreases stage, 0, k
  {
    if k > 0 {
      GainSumIsRowSum(c, stage, k - 1);
      if k > 1 {
        GainSumIsRowSum(c, k - 2, k - 1);
      }
    }
  }

  lemma {:induction false} GainOneConserves(c: Scheme, t0: real, k: nat)
    requires c.Valid() && Gain(c, c.nstages) == 1.0
    ensures StartTotal(c, t0, k) == t0
  {
    if k > 0 {
      GainOneConserves(c, t0, k - 1);
    }
  }

  lemma OneStep(c: Scheme, t0: real)
    requires c.Valid()
    ensures StartTotal(c, t0, c.nstages) == Times(Gain(c, c.nstages), t0)
  {
    FirstStep(c, t0, c.nstages - 1);
    LoadRecoversStep(1, 0, c.nstages);
  }

  lemma ProductChanges(g: real, t0: real)
    ensures Times(g, t0) == t0 <==> g == 1.0 || t0 == 0.0
  {
    assert Times(g, t0) - t0 == (g - 1.0) * t0;
  }

  /** In a run the total of entry 0 is what the completed steps made of the first one. */
  lemma RunTotal(c: Scheme, dt: real, weights: Vec, n: nat, run: seq<seq<StageData>>, filled: seq<seq<StageData>>,
                 k: nat)
    requires IsRun(c, dt, n, run, filled) && k < |run|
    requires forall j | 0 <= j < |filled| :: Still(weights, n, filled[j][StageOf(c, j)])
    ensures Total(weights, run[k][0].q, n) == StartTotal(c, Total(weights, run[0][0].q, n), k)
  {
    RunCarries(c, dt, weights, n, run, filled, k);
    TimesOne(StartTotal(c, Total(weights, run[0][0].q, n), k));
  }

  lemma TimesOne(x: real)
    ensures Times(1.0, x) == x
  {
  }

  /** With rows that sum to one, runs of any length conserve every linear total with zero rate. */
  lemma RunConserves(c: Scheme, dt: real, weights: Vec, n: nat, run: seq<seq<StageData>>, filled: seq<seq<StageData>>,
                     k: nat)
    requires IsRun(c, dt, n, run, filled) && k < |run|
    requires forall j | 0 <= j < |filled| :: Still(weights, n, filled[j][StageOf(c, j)])
    requires forall i | 0 <= i < c.nstages :: RowSum(c.ark[i], i + 1) == 1.0
    ensures Total(weights, run[k][0].q, n) == Total(weights, run[0][0].q, n)
  {
    RunTotal(c, dt, weights, n, run, filled, k);
    RowSumsGainOne(c, c.nstages);
    GainOneConserves(c, Total(weights, run[0][0].q, n), k);
  }

  /** A run that completes a step conserves a total in it if and only if the gain is one or the total is zero. */
  lemma StepConservesIff(c: Scheme, dt: real, weights: Vec, n: nat, run: seq<seq<StageData>>,
                         filled: seq<seq<StageData>>)
    requires IsRun(c, dt, n, run, filled) && c.nstages < |run|
    requires forall j | 0 <= j < |filled| :: Still(weights, n, filled[j][StageOf(c, j)])
    ensures Total(weights, run[c.nstages][0].q, n) == Total(weights, run[0][0].q, n)
       <==> Gain(c, c.nstages) == 1.0 || Total(weights, run[0][0].q, n) == 0.0
  {
    RunTotal(c, dt, weights, n, run, filled, c.nstages);
    OneStep(c, Total(weights, run[0][0].q, n));
    ProductChanges(Gain(c, c.nstages), Total(weights, run[0][0].q, n));
  }

  /**
   Over a run with a completed step, a total is conserved throughout if and only if the gain is one or the total zero.
   */
  lemma RunConservedIff(c: Scheme, dt: real, weights: Vec, n: nat, run: seq<seq<StageData>>,
                        filled: seq<seq<StageData>>)
    requires IsRun(c, dt, n, run, filled) && c.nstages < |run|
    requires forall j | 0 <= j < |filled| :: Still(weights, n, filled[j][StageOf(c, j)])
    ensures (forall k | 0 <= k < |run| :: Total(weights, run[k][0].q, n) == Total(weights, run[0][0].q, n))
       <==> Gain(c, c.nstages) == 1.0 || Total(weights, run[0][0].q, n) == 0.0
  {
    var t0 := Total(weights, run[0][0].q, n);
    StepConservesIff(c, dt, weights, n, run, filled);
    if Gain(c, c.nstages) == 1.0 || t0 == 0.0 {
      forall k | 0 <= k < |run|
        ensures Total(weights, run[k][0].q, n) == t0
      {
        RunTotal(c, dt, weights, n, run, filled, k);
        StartTotalStays(c, t0, k);
      }
    }
  }

  lemma StartTotalStays(c: Scheme, t0: real, k: nat)
    requires c.Valid() && (Gain(c, c.nstages) == 1.0 || t0 == 0.0)
    ensures StartTotal(c, t0, k) == t0
  {
    if t0 == 0.0 {
      ZeroStays(c, k);
    } else {
      GainOneConserves(c, t0, k);
    }
  }

  lemma {:induction false} ZeroStays(c: Scheme, k: nat)
    requires c.Valid()
    ensures StartTotal(c, 0.0, k) == 0.0
  {
    if k > 0 {
      ZeroStays(c, k - 1);
    }
  }

  lemma {:induction false} FirstStep(c: Scheme, t0: real, k: nat)
    requires c.Valid() && k < c.nstages
    ensures StartTotal(c, t0, k) == t0
  {
    if k > 0 {
      FirstStep(c, t0, k - 1);
      LoadRecoversStep(0, k, c.nstages);
    }
  }
}
