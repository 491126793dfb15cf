/**
 * The fixed-timestep scheduling rule of the frame clock: given the time of the
 * last fixed update, the fixed step and the current clock reading (all in
 * microseconds), how many fixed physics steps to run this frame and how long
 * each one is.
 */
module FixedStep {

  /** How many fixed updates one frame may run; only reached at low frame rates. */
  const MAX_FIXED_UPDATES_PER_FRAME: int := 4

  const UINT32_LIMIT: int := 0x1_0000_0000
  const UINT64_LIMIT: int := 0x1_0000_0000_0000_0000

  /**
   * Every timestamp and step of the model lies below 2^62 microseconds (about
   * 146,000 years). In that range no UINT64 sum wraps, no cast to INT64 changes
   * a value and no INT64 sum inside a ceiling division overflows, so unbounded
   * integers compute exactly what the machine arithmetic does, except the UINT32
   * narrowing of the iteration counts at lines 62 and 70 of BsTime.cpp, which
   * only PlanAsWritten reproduces.
   */
  const TIME_LIMIT: int := 0x4000_0000_0000_0000

  predicate IsU64(x: int) { 0 <= x < UINT64_LIMIT }

  predicate InDomain(last: int, fixedStep: int, currentTime: int) {
    0 <= last < TIME_LIMIT && 0 < fixedStep < TIME_LIMIT && 0 <= currentTime < TIME_LIMIT
  }

  /** What one query returns: the iteration count and, through the out-parameter, the step. */
  datatype StepPlan = StepPlan(iterations: nat, step: nat)

  /** Math::divideAndRoundUp: the least multiple count of d that reaches n. */
  function DivideAndRoundUp(n: int, d: int): (q: int)
    requires n >= 0 && d > 0
    ensures q >= 0
    ensures n <= q * d < n + d
  {
    (n + d - 1) / d
  }

  /** A fixed step is due once a whole step has passed since the last fixed update. */
  predicate IsDue(last: int, fixedStep: int, currentTime: int) {
    last + fixedStep <= currentTime
  }

  /**
   * The time to simulate: the elapsed time, but at least one step. When a step
   * is due the elapsed time is already at least a step, so the subtraction of
   * the UINT64 timestamps never underflows and the lower bound never applies.
   */
  function SimulationAmount(last: int, fixedStep: int, currentTime: int): (amount: int)
    requires InDomain(last, fixedStep, currentTime) && IsDue(last, fixedStep, currentTime)
    ensures last <= currentTime
    ensures amount == currentTime - last
    ensures fixedStep <= amount < TIME_LIMIT
  {
    var elapsed := currentTime - last;
    if elapsed < fixedStep then fixedStep else elapsed
  }

  /**
   * The scheduling decision with the iteration count compared against the cap
   * before any narrowing: no steps when none is due; otherwise the number of
   * fixed steps that covers the simulation amount, and when that exceeds the
   * cap, a lengthened step with which at most the capped count covers it.
   */
  function Plan(last: int, fixedStep: int, currentTime: int): (p: StepPlan)
    requires InDomain(last, fixedStep, currentTime)
    ensures !IsDue(last, fixedStep, currentTime) ==> p == StepPlan(0, 0)
    ensures IsDue(last, fixedStep, currentTime) ==> fixedStep <= p.step <= currentTime - last
  {
    if !IsDue(last, fixedStep, currentTime) then StepPlan(0, 0)
    else
      var amount := SimulationAmount(last, fixedStep, currentTime);
      var n := DivideAndRoundUp(amount, fixedStep);
      if n > MAX_FIXED_UPDATES_PER_FRAME then
        var stepus := DivideAndRoundUp(amount, MAX_FIXED_UPDATES_PER_FRAME);
        assert fixedStep < stepus <= amount by { CappedStepBounds(amount, fixedStep); }
        StepPlan(DivideAndRoundUp(amount, stepus), stepus)
      else
        StepPlan(n, fixedStep)
  }

  /**
   * The same decision as the source writes it: each iteration count is cast to
   * UINT32 as soon as it is computed, so the first one is reduced modulo 2^32
   * before it is compared against the cap.
   */
  function PlanAsWritten(last: int, fixedStep: int, currentTime: int): (p: StepPlan)
    requires InDomain(last, fixedStep, currentTime)
    ensures !IsDue(last, fixedStep, currentTime) ==> p == StepPlan(0, 0)
    ensures IsDue(last, fixedStep, currentTime) ==> fixedStep <= p.step <= currentTime - last
    ensures p.iterations < UINT32_LIMIT
  {
    if !IsDue(last, fixedStep, currentTime) then StepPlan(0, 0)
    else
      var amount := SimulationAmount(last, fixedStep, currentTime);
      var n := DivideAndRoundUp(amount, fixedStep) % UINT32_LIMIT;
      if n > MAX_FIXED_UPDATES_PER_FRAME then
        var stepus := DivideAndRoundUp(amount, MAX_FIXED_UPDATES_PER_FRAME);
        assert fixedStep < stepus <= amount by { CappedStepBounds(amount, fixedStep); }
        StepPlan(DivideAndRoundUp(amount, stepus) % UINT32_LIMIT, stepus)
      else
        StepPlan(n, fixedStep)
  }

  // Arithmetic helpers for the lemmas below. Each one confines a step about
  // products to a small lemma, so that its callers reason linearly.

  lemma MulMono(a: int, b: int, c: int)
    requires a <= b && 0 <= c
    ensures a * c <= b * c
  {
  }

  lemma OneLessStep(n: int, s: int)
    ensures (n - 1) * s == n * s - s
  {
  }

  /**
   * When the fixed step needs more than MAX_FIXED_UPDATES_PER_FRAME iterations,
   * the amount exceeds that many fixed steps, and the lengthened step lies
   * strictly above the fixed step and at most at the whole amount.
   */
  lemma CappedStepBounds(amount: int, fixedStep: int)
    requires 0 < fixedStep <= amount
    requires DivideAndRoundUp(amount, fixedStep) > MAX_FIXED_UPDATES_PER_FRAME
    ensures MAX_FIXED_UPDATES_PER_FRAME * fixedStep < amount
    ensures fixedStep < DivideAndRoundUp(amount, MAX_FIXED_UPDATES_PER_FRAME) <= amount
  {
    var q := DivideAndRoundUp(amount, fixedStep);
    MulMono(MAX_FIXED_UPDATES_PER_FRAME + 1, q, fixedStep);
  }

  /** The iteration count and step of the capped branch. */
  lemma CappedBranch(amount: int, fixedStep: int)
    requires 0 < fixedStep <= amount
    requires DivideAndRoundUp(amount, fixedStep) > MAX_FIXED_UPDATES_PER_FRAME
    ensures var stepus := DivideAndRoundUp(amount, MAX_FIXED_UPDATES_PER_FRAME);
            var n := DivideAndRoundUp(amount, stepus);
            fixedStep < stepus && 1 <= n <= MAX_FIXED_UPDATES_PER_FRAME
  {
    CappedStepBounds(amount, fixedStep);
    var stepus := DivideAndRoundUp(amount, MAX_FIXED_UPDATES_PER_FRAME);
    var n := DivideAndRoundUp(amount, stepus);
    // n * stepus < amount + stepus <= (MAX_FIXED_UPDATES_PER_FRAME + 1) * stepus
    if n > MAX_FIXED_UPDATES_PER_FRAME {
      MulMono(MAX_FIXED_UPDATES_PER_FRAME + 1, n, stepus);
    }
    if n < 1 {
      MulMono(n, 0, stepus);
    }
  }

  /** The uncapped iteration count is positive when there is something to simulate. */
  lemma UncappedCountPositive(amount: int, fixedStep: int)
    requires 0 < fixedStep <= amount
    ensures DivideAndRoundUp(amount, fixedStep) >= 1
  {
    var q := DivideAndRoundUp(amount, fixedStep);
    if q < 1 {
      MulMono(q, 0, fixedStep);
    }
  }

  /**
   * No steps exactly when none is due; otherwise at least one and at most
   * MAX_FIXED_UPDATES_PER_FRAME, in the capped and in the uncapped branch.
   */
  lemma PlanIterationBounds(last: int, fixedStep: int, currentTime: int)
    requires InDomain(last, fixedStep, currentTime)
    ensures var p := Plan(last, fixedStep, currentTime);
            (p.iterations == 0 <==> !IsDue(last, fixedStep, currentTime)) &&
            0 <= p.iterations <= MAX_FIXED_UPDATES_PER_FRAME &&
            (p.iterations == 0 ==> p.step == 0)
  {
    if IsDue(last, fixedStep, currentTime) {
      var amount := SimulationAmount(last, fixedStep, currentTime);
      UncappedCountPositive(amount, fixedStep);
      if DivideAndRoundUp(amount, fixedStep) > MAX_FIXED_UPDATES_PER_FRAME {
        CappedBranch(amount, fixedStep);
      }
    }
  }

  /**
   * Coverage: when a step is due the planned steps together reach the elapsed
   * time, and without the last of them they would fall short of it.
   */
  lemma PlanCoversElapsed(last: int, fixedStep: int, currentTime: int)
    requires InDomain(last, fixedStep, currentTime) && IsDue(last, fixedStep, currentTime)
    ensures var p := Plan(last, fixedStep, currentTime);
            p.step * p.iterations >= currentTime - last &&
            p.step * (p.iterations - 1) < currentTime - last
  {
    var p := Plan(last, fixedStep, currentTime);
    var amount := currentTime - last;
    // Not needed for soundness: the bracket from DivideAndRoundUp, spelled out
    // for the solver, keeps this proof cheap on every solver seed.
    assert amount <= p.iterations * p.step < amount + p.step;
    OneLessStep(p.iterations, p.step);
  }

  /**
   * The returned step is the fixed step exactly when the fixed step needs no
   * more than MAX_FIXED_UPDATES_PER_FRAME iterations; otherwise it is longer.
   */
  lemma PlanStepChoice(last: int, fixedStep: int, currentTime: int)
    requires InDomain(last, fixedStep, currentTime) && IsDue(last, fixedStep, currentTime)
    ensures var p := Plan(last, fixedStep, currentTime);
            var needed := DivideAndRoundUp(currentTime - last, fixedStep);
            (needed <= MAX_FIXED_UPDATES_PER_FRAME ==> p == StepPlan(needed, fixedStep)) &&
            (needed > MAX_FIXED_UPDATES_PER_FRAME ==> p.step > fixedStep)
  {
    var amount := SimulationAmount(last, fixedStep, currentTime);
    if DivideAndRoundUp(amount, fixedStep) > MAX_FIXED_UPDATES_PER_FRAME {
      CappedBranch(amount, fixedStep);
    }
  }

  /**
   * The lengthened step is the shortest one with which MAX_FIXED_UPDATES_PER_FRAME
   * steps cover the elapsed time.
   */
  lemma CappedStepIsLeast(last: int, fixedStep: int, currentTime: int, s: int)
    requires InDomain(last, fixedStep, currentTime) && IsDue(last, fixedStep, currentTime)
    requires DivideAndRoundUp(currentTime - last, fixedStep) > MAX_FIXED_UPDATES_PER_FRAME
    requires s * MAX_FIXED_UPDATES_PER_FRAME >= currentTime - last
    ensures Plan(last, fixedStep, currentTime).step <= s
  {
  }

  /**
   * The first query after start-up reads the clock into the last fixed update
   * time, so with a positive step nothing is due and the frame is skipped.
   */
  lemma FirstFixedFrameSkipped(fixedStep: int, currentTime: int)
    requires InDomain(currentTime, fixedStep, currentTime)
    ensures Plan(currentTime, fixedStep, currentTime) == StepPlan(0, 0)
  {
  }

  /** One `_advanceFixedUpdate(step)`: the fixed clock moves forward by step, as a UINT64 sum. */
  function AdvanceOnce(last: int, step: int): (advanced: int)
    requires IsU64(last) && IsU64(step)
    ensures IsU64(advanced)
    ensures advanced % UINT64_LIMIT == (last + step) % UINT64_LIMIT
    ensures last + step < UINT64_LIMIT ==> advanced == last + step
  {
    (last + step) % UINT64_LIMIT
  }

  /** `n` successive `_advanceFixedUpdate(step)` calls, one per planned iteration. */
  function AdvanceRepeatedly(last: int, step: int, n: nat): (advanced: int)
    requires IsU64(last) && IsU64(step)
    ensures IsU64(advanced)
  {
    if n == 0 then last else AdvanceOnce(AdvanceRepeatedly(last, step, n - 1), step)
  }

  /** Without wrap-around, n advances by step move the fixed clock by exactly n * step. */
  lemma {:induction false} AdvanceRepeatedlySum(last: int, step: int, n: nat)
    requires IsU64(last) && IsU64(step) && last + n * step < UINT64_LIMIT
    ensures AdvanceRepeatedly(last, step, n) == last + n * step
  {
    if n > 0 {
      OneLessStep(n, step);
      AdvanceRepeatedlySum(last, step, n - 1);
    }
  }

  /**
   * Running the planned iterations, each advancing the last fixed update time
   * by the returned step, catches the fixed clock up with the current time,
   * overshooting it by less than one step, so an immediate second query at the
   * same time finds no step due.
   */
  lemma AdvancingByPlanCatchesUp(last: int, fixedStep: int, currentTime: int)
    requires InDomain(last, fixedStep, currentTime) && IsDue(last, fixedStep, currentTime)
    ensures var p := Plan(last, fixedStep, currentTime);
            var advanced := AdvanceRepeatedly(last, p.step, p.iterations);
            currentTime <= advanced < currentTime + p.step &&
            !IsDue(advanced, fixedStep, currentTime)
  {
    var p := Plan(last, fixedStep, currentTime);
    PlanIterationBounds(last, fixedStep, currentTime);
    PlanCoversElapsed(last, fixedStep, currentTime);
    AdvanceRepeatedlySum(last, p.step, p.iterations);
  }

  /** At most 2^32 - 1 fixed steps of time need fewer than 2^32 iterations. */
  lemma CountBelowUint32(amount: int, fixedStep: int)
    requires 0 < fixedStep <= amount <= fixedStep * (UINT32_LIMIT - 1)
    ensures DivideAndRoundUp(amount, fixedStep) < UINT32_LIMIT
  {
    var q := DivideAndRoundUp(amount, fixedStep);
    if q >= UINT32_LIMIT {
      MulMono(UINT32_LIMIT, q, fixedStep);
    }
  }

  /**
   * The source's narrowing cast is harmless as long as the fixed step needs
   * fewer than 2^32 iterations to cover the elapsed time.
   */
  lemma PlanAsWrittenAgrees(last: int, fixedStep: int, currentTime: int)
    requires InDomain(last, fixedStep, currentTime)
    requires currentTime - last <= fixedStep * (UINT32_LIMIT - 1)
    ensures PlanAsWritten(last, fixedStep, currentTime) == Plan(last, fixedStep, currentTime)
  {
    if IsDue(last, fixedStep, currentTime) {
      var amount := SimulationAmount(last, fixedStep, currentTime);
      var q := DivideAndRoundUp(amount, fixedStep);
      if q > MAX_FIXED_UPDATES_PER_FRAME {
        CountBelowUint32(amount, fixedStep);
        CappedBranch(amount, fixedStep);
        var stepus := DivideAndRoundUp(amount, MAX_FIXED_UPDATES_PER_FRAME);
        var n := DivideAndRoundUp(amount, stepus);
        assert q % UINT32_LIMIT == q && n % UINT32_LIMIT == n;
      } else {
        assert q % UINT32_LIMIT == q;
      }
    }
  }

  /**
   * With a 1 ms fixed step and 2^32 ms (about 49.7 days) since the last fixed
   * update, the source's count of 2^32 fixed steps narrows to 0: the cap is not
   * applied and no step is run although one is due; the corrected rule runs
   * four lengthened steps that cover the whole interval.
   */
  lemma PlanAsWrittenSkipsDueStep()
    ensures InDomain(0, 1000, 4_294_967_296_000) && IsDue(0, 1000, 4_294_967_296_000)
    ensures PlanAsWritten(0, 1000, 4_294_967_296_000) == StepPlan(0, 1000)
    ensures Plan(0, 1000, 4_294_967_296_000) == StepPlan(4, 1_073_741_824_000)
  {
  }
}
