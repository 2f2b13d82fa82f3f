/** The step schedule of one virtual-slope run (src/VS_controller.py):
    the per-tick step first walks a `linspace` from the previous subphase's
    step to the new step ("step transition"), and once that list is used up
    it switches to the new step plus an error compensation that makes up
    for the distance the smoothed transition lost or gained. */
module StepSchedule {
  import opened Numbers

  datatype Schedule = Schedule(
    transitionList: seq<real>,  // linspace(previous_step, step, transition_time)
    position: nat,              // values of the list already taken
    active: bool,               // the transition is still running
    currentStep: real,          // step the slope advances by on this tick
    targetStep: real,
    originalTargetStep: real,   // the subphase's own step
    compensationActive: bool
  )

  /** A schedule whose position stays within its transition list. */
  predicate Valid(s: Schedule) {
    s.position <= |s.transitionList|
  }

  /** The schedule of a freshly built controller: it starts on the previous
      subphase's step and runs a transition only when the steps differ. */
  function Init(previousStep: real, step: real, transitionTime: nat): (s: Schedule)
    ensures Valid(s)
    ensures s.currentStep == previousStep && s.originalTargetStep == step
    ensures s.active <==> previousStep != step
    ensures s.transitionList == Linspace(previousStep, step, transitionTime)
  {
    Schedule(Linspace(previousStep, step, transitionTime), 0, previousStep != step,
             previousStep, step, step, false)
  }

  /** How far the constant step would have moved over the transition ticks. */
  function LinearMovement(s: Schedule): real {
    s.originalTargetStep * (|s.transitionList| as real)
  }

  /** Distance of the slope still to cover, measured from the planned start,
      after the transition ticks had moved at the constant step. */
  function Remaining(s: Schedule, endZ: real, plannedZ: real): real {
    (endZ - plannedZ) - LinearMovement(s)
  }

  /** Whether a compensation can be computed at all: the source requires a
      non-zero remaining distance and a non-zero step. */
  predicate CanCompensate(s: Schedule, endZ: real, plannedZ: real) {
    Abs(Remaining(s, endZ, plannedZ)) > 0.0 && Abs(s.originalTargetStep) > 0.0
  }

  /** Number of ticks over which the accumulated error is spread:
      `ceil(|remaining / step|)`. */
  function RemainingSteps(s: Schedule, endZ: real, plannedZ: real): int
    requires CanCompensate(s, endZ, plannedZ)
  {
    Ceil(Abs(Remaining(s, endZ, plannedZ) / s.originalTargetStep))
  }

  /** `_calculate_error_compensation`: spread the difference between the
      constant-step movement and the smoothed movement over the remaining
      steps; fall back to the plain step when there is nothing to spread it
      over. */
  function Compensate(s: Schedule, endZ: real, plannedZ: real): (r: Schedule)
    ensures r.transitionList == s.transitionList && r.position == s.position
    ensures r.active == s.active && r.originalTargetStep == s.originalTargetStep
  {
    var accumulated := LinearMovement(s) - Sum(s.transitionList);
    if CanCompensate(s, endZ, plannedZ) then
      var k := RemainingSteps(s, endZ, plannedZ);
      if k > 0 then
        var c := s.originalTargetStep + accumulated / (k as real);
        s.(currentStep := c, targetStep := c, compensationActive := true)
      else
        s.(currentStep := s.originalTargetStep)
    else
      s.(currentStep := s.originalTargetStep)
  }

  /** `_update_step_transition`, run first on every controller tick. */
  function Tick(s: Schedule, endZ: real, plannedZ: real): (r: Schedule)
    requires Valid(s)
    ensures Valid(r)
    ensures r.transitionList == s.transitionList
    ensures r.originalTargetStep == s.originalTargetStep
  {
    if !s.active then s
    else if s.position < |s.transitionList| then
      s.(currentStep := s.transitionList[s.position], position := s.position + 1)
    else
      Compensate(s.(active := false), endZ, plannedZ)
  }

  /** `n` consecutive ticks. */
  function TickN(s: Schedule, endZ: real, plannedZ: real, n: nat): (r: Schedule)
    requires Valid(s)
    ensures Valid(r)
    ensures r.transitionList == s.transitionList
    ensures r.originalTargetStep == s.originalTargetStep
    decreases n
  {
    if n == 0 then s else TickN(Tick(s, endZ, plannedZ), endZ, plannedZ, n - 1)
  }

  // ---------------------------------------------------------------------
  // Properties of the compensation

  /** The remaining-step count is at least one and covers the remaining
      distance: `(k - 1) * |step| < |remaining| <= k * |step|`. */
  lemma RemainingStepsCover(s: Schedule, endZ: real, plannedZ: real)
    requires CanCompensate(s, endZ, plannedZ)
    ensures RemainingSteps(s, endZ, plannedZ) >= 1
    ensures Abs(Remaining(s, endZ, plannedZ))
            <= (RemainingSteps(s, endZ, plannedZ) as real) * Abs(s.originalTargetStep)
    ensures Abs(Remaining(s, endZ, plannedZ))
            > ((RemainingSteps(s, endZ, plannedZ) - 1) as real) * Abs(s.originalTargetStep)
  {
    CeilCover(Remaining(s, endZ, plannedZ), s.originalTargetStep);
  }

  /** `k = ceil(|rem / st|)` steps of size `|st|` cover `|rem|` with less
      than one step to spare. */
  lemma CeilCover(rem: real, st: real)
    requires rem != 0.0 && st != 0.0
    ensures var k := Ceil(Abs(rem / st));
            && k >= 1
            && Abs(rem) <= (k as real) * Abs(st)
            && Abs(rem) > ((k - 1) as real) * Abs(st)
  {
    var q := Abs(rem / st);
    var k := Ceil(q);
    QuotientTimes(rem, st);
    assert q > 0.0;
    assert q <= k as real < q + 1.0;
    MulLe(q, k as real, Abs(st));
    BelowOneStepShort(Abs(rem), q, k, Abs(st));
  }

  /** `|rem| == |rem / st| * |st|`, and the quotient of non-zero numbers is
      non-zero. */
  lemma QuotientTimes(rem: real, st: real)
    requires rem != 0.0 && st != 0.0
    ensures Abs(rem) == Abs(rem / st) * Abs(st)
    ensures rem / st != 0.0
  {
    var q := rem / st;
    assert rem == q * st;
  }

  /** `k < q + 1` steps of size `t` fall short of `q * t` by less than one
      step. */
  lemma BelowOneStepShort(a: real, q: real, k: int, t: real)
    requires t > 0.0 && a == q * t && (k as real) < q + 1.0
    ensures a > ((k - 1) as real) * t
  {
    MulLt((k - 1) as real, q, t);
  }

  /** Once the compensation is in force, the transition ticks followed by
      the `k` compensated ticks move the slope exactly as far as `N + k`
      ticks at the constant step would have: the smoothing error is made
      up in full by the end of the remaining distance. */
  lemma CompensationRecoversDrift(s: Schedule, endZ: real, plannedZ: real)
    requires CanCompensate(s, endZ, plannedZ)
    ensures Compensate(s, endZ, plannedZ).compensationActive
    ensures var k := RemainingSteps(s, endZ, plannedZ);
            Sum(s.transitionList) + (k as real) * Compensate(s, endZ, plannedZ).currentStep
            == ((|s.transitionList| + k) as real) * s.originalTargetStep
  {
    RemainingStepsCover(s, endZ, plannedZ);
    var k := RemainingSteps(s, endZ, plannedZ);
    var e := LinearMovement(s) - Sum(s.transitionList);
    var kr := k as real;
    assert kr * (s.originalTargetStep + e / kr) == kr * s.originalTargetStep + e;
  }

  /** Without a remaining distance or a step, the plain step is used. */
  lemma CompensationFallback(s: Schedule, endZ: real, plannedZ: real)
    requires !CanCompensate(s, endZ, plannedZ)
    ensures Compensate(s, endZ, plannedZ).currentStep == s.originalTargetStep
    ensures Compensate(s, endZ, plannedZ).compensationActive == s.compensationActive
  {
  }

  /** For a linspace transition of at least two ticks the compensated step
      has the closed form `step + N * (step - previous) / (2 * k)`. */
  lemma CompensationClosedForm(previousStep: real, step: real, transitionTime: nat,
                               endZ: real, plannedZ: real)
    requires transitionTime >= 2
    requires CanCompensate(Init(previousStep, step, transitionTime), endZ, plannedZ)
    ensures var s := Init(previousStep, step, transitionTime);
            var k := RemainingSteps(s, endZ, plannedZ);
            k >= 1 &&
            Compensate(s, endZ, plannedZ).currentStep
            == step + (transitionTime as real) * (step - previousStep) / (2.0 * k as real)
  {
    var s := Init(previousStep, step, transitionTime);
    RemainingStepsCover(s, endZ, plannedZ);
    LinspaceSum(previousStep, step, transitionTime);
    var n := transitionTime as real;
    var k := RemainingSteps(s, endZ, plannedZ) as real;
    var e := step * n - n * (previousStep + step) / 2.0;
    assert LinearMovement(s) - Sum(s.transitionList) == e;
    assert Compensate(s, endZ, plannedZ).currentStep == step + e / k;
    HalfSpread(n, k, previousStep, step);
  }

  /** The arithmetic of the closed form. */
  lemma HalfSpread(n: real, k: real, previousStep: real, step: real)
    requires k > 0.0
    ensures (step * n - n * (previousStep + step) / 2.0) / k
            == n * (step - previousStep) / (2.0 * k)
  {
    var e := step * n - n * (previousStep + step) / 2.0;
    assert e == n * (step - previousStep) / 2.0;
  }

  // ---------------------------------------------------------------------
  // The schedule over successive ticks

  /** While the transition runs, tick `j` (counting from one) takes the
      `j`-th value of the linspace. */
  lemma {:induction false} TransitionValues(s: Schedule, endZ: real, plannedZ: real, n: nat)
    requires Valid(s) && s.active
    requires 1 <= n <= |s.transitionList| - s.position
    ensures TickN(s, endZ, plannedZ, n).active
    ensures TickN(s, endZ, plannedZ, n).position == s.position + n
    ensures TickN(s, endZ, plannedZ, n).currentStep == s.transitionList[s.position + n - 1]
    decreases n
  {
    var t := Tick(s, endZ, plannedZ);
    if n > 1 {
      TransitionValues(t, endZ, plannedZ, n - 1);
    }
  }

  /** Ticks on an inactive schedule change nothing. */
  lemma {:induction false} InactiveIsStable(s: Schedule, endZ: real, plannedZ: real, n: nat)
    requires Valid(s) && !s.active
    ensures TickN(s, endZ, plannedZ, n) == s
    decreases n
  {
    if n > 0 {
      InactiveIsStable(s, endZ, plannedZ, n - 1);
    }
  }

  /** The full schedule of a controller built with `previous_step != step`:
      the `N` linspace values on ticks 1..N, then on tick N+1 and every tick
      after it the compensated step (or the plain step when no compensation
      applies). */
  lemma StepScheduleHolds(previousStep: real, step: real, transitionTime: nat,
                          endZ: real, plannedZ: real, n: nat)
    requires previousStep != step
    ensures var s := Init(previousStep, step, transitionTime);
            var r := TickN(s, endZ, plannedZ, n);
            (1 <= n <= transitionTime ==>
               r.currentStep == Linspace(previousStep, step, transitionTime)[n - 1]) &&
            (n > transitionTime ==>
               !r.active && r.currentStep == Compensate(s, endZ, plannedZ).currentStep)
  {
    var s := Init(previousStep, step, transitionTime);
    if 1 <= n <= transitionTime {
      TransitionValues(s, endZ, plannedZ, n);
    } else if n > transitionTime {
      var m := s;
      if transitionTime > 0 {
        TransitionValues(s, endZ, plannedZ, transitionTime);
        m := TickN(s, endZ, plannedZ, transitionTime);
      }
      TickNSplit(s, endZ, plannedZ, transitionTime, n - transitionTime);
      assert m.position == |m.transitionList| && m.active;
      var f := Tick(m, endZ, plannedZ);
      assert f == Compensate(m.(active := false), endZ, plannedZ);
      CompensateDependsOnListAndStep(m.(active := false), s, endZ, plannedZ);
      TickNSplit(m, endZ, plannedZ, 1, n - transitionTime - 1);
      InactiveIsStable(f, endZ, plannedZ, n - transitionTime - 1);
    }
  }

  /** With equal steps there is no transition: every tick uses that step. */
  lemma NoTransitionKeepsStep(step: real, transitionTime: nat, endZ: real, plannedZ: real, n: nat)
    ensures TickN(Init(step, step, transitionTime), endZ, plannedZ, n).currentStep == step
  {
    InactiveIsStable(Init(step, step, transitionTime), endZ, plannedZ, n);
  }

  /** `a + b` ticks are `a` ticks followed by `b` ticks. */
  lemma {:induction false} TickNSplit(s: Schedule, endZ: real, plannedZ: real, a: nat, b: nat)
    requires Valid(s)
    ensures TickN(s, endZ, plannedZ, a + b)
            == TickN(TickN(s, endZ, plannedZ, a), endZ, plannedZ, b)
    decreases a
  {
    if a > 0 {
      TickNSplit(Tick(s, endZ, plannedZ), endZ, plannedZ, a - 1, b);
    }
  }

  /** The compensated step only depends on the list and the step. */
  lemma CompensateDependsOnListAndStep(s: Schedule, t: Schedule, endZ: real, plannedZ: real)
    requires s.transitionList == t.transitionList
    requires s.originalTargetStep == t.originalTargetStep
    ensures Compensate(s, endZ, plannedZ).currentStep == Compensate(t, endZ, plannedZ).currentStep
  {
    assert LinearMovement(s) == LinearMovement(t);
    assert Remaining(s, endZ, plannedZ) == Remaining(t, endZ, plannedZ);
    if CanCompensate(s, endZ, plannedZ) {
      assert RemainingSteps(s, endZ, plannedZ) == RemainingSteps(t, endZ, plannedZ);
    }
  }
}
