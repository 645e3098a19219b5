/**
 Second-order Strang splitting over two Runge-Kutta steppers: half a step of the first, a step of the second, half a
 step of the first.
 */
module Strang {
  import opened SspRk

  class SecondStrangStepper {
    const first: ESSPRKStepper
    const second: ESSPRKStepper
    var doneFirst: bool
    var doneSecond: bool
    var current: ESSPRKStepper

    /** Flags, pointer and step counts agree; the stepper that is not current is between steps. */
    ghost predicate Valid()
      reads this, first, second
    {
      && first != second && first.Valid() && second.Valid() && first.OnTime() && second.OnTime()
      && first.c == second.c && second.dt == 2.0 * first.dt
      && (doneSecond ==> doneFirst)
      && current == (if doneFirst && !doneSecond then second else first)
      && (current == first ==> second.stage == 0) && (current == second ==> first.stage == 0)
      && first.step == if !doneFirst then 2 * second.step else if !doneSecond then 2 * second.step + 1
          else 2 * second.step - 1
    }

    /** All stages done, by either stepper. */
    ghost function Count(): nat
      reads first, second
    {
      first.timestamp + second.timestamp
    }

    constructor (order: nat, c: Scheme, dt: real)
      requires c.Valid()
      ensures Valid() && Count() == 0 && first.c == c && first.dt == dt / 2.0 && second.dt == dt
      ensures fresh(first) && fresh(second) && !doneFirst && !doneSecond
    {
      first := new ESSPRKStepper(order, c, dt);
      second := new ESSPRKStepper(order, c, dt);
      current := first;
      doneFirst, doneSecond := false, false;
      new;
      first.SetDT(first.dt / 2.0);
    }

    /** operator++ */
    method Advance()
      requires Valid()
      modifies this, first, second
      ensures Valid() && Count() == old(Count()) + 1
      ensures first.c == old(first.c) && first.dt == old(first.dt)
    {
      current.Advance();
      if current.stage == 0 {
        if !doneFirst && !doneSecond {
          current := second;
          doneFirst := true;
        } else if doneFirst && !doneSecond {
          current := first;
          doneSecond := true;
        } else if doneFirst && doneSecond {
          current := first;
          doneFirst := false;
          doneSecond := false;
        }
      }
    }

    /** The stepper that updates is the one that `current` reports stage, time and step length of. */
    method UpdateState(elt: Element)
      requires Valid() && |elt.state| == current.c.nstages + 1
      modifies elt
      ensures elt.state == Updated(current.c, current.dt, current.stage, old(elt.state))
    {
      if !doneFirst && !doneSecond {
        first.UpdateState(elt);
      } else if doneFirst && !doneSecond {
        second.UpdateState(elt);
      } else if doneFirst && doneSecond {
        first.UpdateState(elt);
      }
    }
  }

  /** Stages done in a cycle of three phases of n stages each. */
  lemma PhaseCount(n: nat, firstStep: nat, firstStage: nat, secondStep: nat, secondStage: nat, k: nat)
    requires firstStage < n && secondStage < n && (firstStage == 0 || secondStage == 0)
    requires firstStep * n + firstStage + secondStep * n + secondStage == 3 * n * k
    requires 2 * secondStep - 1 <= firstStep <= 2 * secondStep + 1
    requires firstStep == 2 * secondStep + 1 ==> firstStage == 0
    requires firstStep != 2 * secondStep + 1 ==> secondStage == 0
    ensures firstStage == 0 && secondStage == 0 && firstStep + secondStep == 3 * k
  {
    var stage := firstStage + secondStage;
    assert n * (3 * k - firstStep - secondStep) == stage;
    if 3 * k - firstStep - secondStep != 0 {
      MultipleIsFar(n, 3 * k - firstStep - secondStep);
    }
  }

  /**
   However the run got there: after k full cycles the first stepper has made 2k half steps, the second k steps, to the
   same time.
   */
  lemma AfterCycles(s: SecondStrangStepper, k: nat)
    requires s.Valid() && s.Count() == 3 * s.first.c.nstages * k
    ensures !s.doneFirst && !s.doneSecond && s.current == s.first && s.first.stage == 0
    ensures s.first.step == 2 * k && s.second.step == k && s.first.t == s.second.t
  {
    PhaseCount(s.first.c.nstages, s.first.step, s.first.stage, s.second.step, s.second.stage, k);
    assert s.first.t == (2 * s.second.step) as real * s.first.dt;
    HalfSteps(s.second.step, s.first.dt);
  }

  lemma HalfSteps(k: nat, half: real)
    ensures (2 * k) as real * half == k as real * (2.0 * half)
  {
  }

  /** Steps the stepper of phase q has completed before it: phases go first, second, first. */
  function StepsBefore(q: nat): nat {
    if q % 3 == 0 then 2 * (q / 3) else if q % 3 == 1 then q / 3 else 2 * (q / 3) + 1
  }

  /** The time stamp reported after k stages. */
  function Reported(n: nat, k: nat): nat
    requires n > 0
  {
    StepsBefore(k / n) * n + k % n
  }

  /** What a stepper reports depends on the number of stages done alone. */
  lemma ReportsByCount(s: SecondStrangStepper)
    requires s.Valid()
    ensures s.first.c.nstages > 0
    ensures s.current.timestamp == Reported(s.first.c.nstages, s.Count())
    ensures s.current == s.second <==> s.Count() / s.first.c.nstages % 3 == 1
  {
    var n, steps, stage := s.first.c.nstages, s.first.step + s.second.step, s.first.stage + s.second.stage;
    AddedSteps(s.first.step, s.second.step, n);
    LoadRecoversStep(steps, stage, n);
    PhaseOf(s.first.step, s.second.step);
  }

  lemma AddedSteps(a: nat, b: nat, n: nat)
    ensures a * n + b * n == (a + b) * n
  {
  }

  /** Which phase comes next after a steps of the first and b of the second stepper. */
  lemma PhaseOf(a: nat, b: nat)
    requires 2 * b - 1 <= a <= 2 * b + 1
    ensures StepsBefore(a + b) == if a == 2 * b + 1 then b else a
    ensures (a + b) % 3 == 1 <==> a == 2 * b + 1
  {
  }

  /** Phases of the first stepper have more steps before them than all earlier phases. */
  lemma FirstIsAhead(p: nat, q: nat)
    requires p < q && q % 3 != 1
    ensures StepsBefore(p) < StepsBefore(q)
  {
  }

  /** A phase of the first stepper with c steps before it, no later than the second stepper's. */
  lemma FirstWasThere(q: nat) returns (p: nat)
    requires q % 3 == 1
    ensures p < q && StepsBefore(p) == StepsBefore(q)
  {
    var c := q / 3;
    p := if c % 2 == 0 then 3 * (c / 2) else 3 * (c / 2) + 2;
  }

  lemma EqualReports(n: nat, j: nat, k: nat)
    requires n > 0
    ensures Reported(n, j) == Reported(n, k) <==> StepsBefore(j / n) == StepsBefore(k / n) && j % n == k % n
  {
    LoadRecoversStep(StepsBefore(j / n), j % n, n);
    LoadRecoversStep(StepsBefore(k / n), k % n, n);
  }

  /** A time stamp was reported before exactly when the second stepper reports it. */
  lemma RepeatsIffSecond(n: nat, k: nat)
    requires n > 0
    ensures (exists j: nat :: j < k && Reported(n, j) == Reported(n, k)) <==> k / n % 3 == 1
  {
    if k / n % 3 == 1 {
      var p := FirstWasThere(k / n);
      var j := p * n + k % n;
      LoadRecoversStep(p, k % n, n);
      EqualReports(n, j, k);
      EarlierPhase(n, p, k / n, k % n);
    } else {
      forall j: nat | j < k
        ensures Reported(n, j) != Reported(n, k)
      {
        EqualReports(n, j, k);
        if j % n == k % n {
          LaterPhase(n, j, k);
          FirstIsAhead(j / n, k / n);
        }
      }
    }
  }

  lemma EarlierPhase(n: nat, p: nat, q: nat, r: nat)
    requires n > 0 && p < q
    ensures p * n + r < q * n + r
  {
    assert (q - p) * n == q * n - p * n;
  }

  lemma LaterPhase(n: nat, j: nat, k: nat)
    requires n > 0 && j < k && j % n == k % n
    ensures j / n < k / n
  {
  }

  /**
   Over all reachable states: the time stamp that current reports was reported before if and only if current is the
   second stepper.
   */
  lemma TimestampRepeatsIff(s: SecondStrangStepper)
    requires s.Valid()
    ensures (exists j: nat :: j < s.Count() && Reported(s.first.c.nstages, j) == s.current.timestamp)
            <==> s.current == s.second
  {
    ReportsByCount(s);
    RepeatsIffSecond(s.first.c.nstages, s.Count());
  }
}
