# Frame clock and fixed-timestep scheduler (bs::framework `Time`)

This project models the integer core of the engine's frame clock, `bs::Time` in
`Source/Foundation/bsfUtility/Utility/BsTime.cpp`. The clock has two parts:

- **Per-frame bookkeeping (`_update`).** It clears the first-frame flag, records the
  frame's timestamp, converts it to whole milliseconds and counts the frame.
- **The fixed-update clock.** `_getFixedUpdateStep` decides how many fixed physics steps
  to run this frame and how long each one is. It runs none until a full fixed step has
  passed. It runs at most `MAX_FIXED_UPDATES_PER_FRAME` (4). When more steps would be
  needed, it lengthens the step so that the capped count still covers the elapsed time.
  `_advanceFixedUpdate` moves the fixed clock forward by one step.

All times are in microseconds. The timer reading is a parameter (`currentTime`,
`currentFrameTime`).

Layout:

- `fixed_step.dfy`, module `FixedStep`. This file holds the scheduling rule as pure
  functions: `DivideAndRoundUp`, `SimulationAmount`, `Plan`, and `PlanAsWritten`, the
  variant the source actually computes (see Findings). `AdvanceOnce` is one
  `_advanceFixedUpdate`; `AdvanceRepeatedly` is one advance per planned iteration, as the
  caller makes them. It also holds the lemmas that state what the rule promises.
- `time.dfy`, module `FrameTime`. The class `Time` holds the fields the source updates
  in place. Its methods `Update`, `GetFixedUpdateStep` and `AdvanceFixedUpdate`
  change them. `GetFixedUpdateStep` computes its answer with `FixedStep.Plan`, and its
  postcondition ties the result to that function.

Every timestamp and step in the scheduling rule is below 2^62 µs (`TIME_LIMIT`, about
146,000 years). Within that range, no UINT64 sum wraps, no cast to INT64 changes a
value, and no INT64 sum inside a ceiling division overflows. So the model's unbounded
integers give exactly what the C++ arithmetic gives, with one exception: the UINT32
narrowing of the iteration count at line 62 of `BsTime.cpp`. Only `PlanAsWritten`
reproduces it. `Plan` and class `Time` compare the full count with the cap (see
Findings). `Math::divideAndRoundUp` is
`(n + d - 1) / d`. For the non-negative operands used here, Dafny's division and C++'s
truncating division agree.

## Model

| member | source | states |
|---|---|---|
| FixedStep.DivideAndRoundUp | Source/Foundation/bsfUtility/Utility/BsTime.cpp:62 | the ceiling quotient q is the least count of d-sized steps that reaches n: n <= q*d < n + d |
| FixedStep.SimulationAmount | Source/Foundation/bsfUtility/Utility/BsTime.cpp:58-61 | when a step is due, last <= currentTime, so the UINT64 subtraction does not underflow; the amount to simulate equals the elapsed time and is at least one fixed step |
| FixedStep.Plan | Source/Foundation/bsfUtility/Utility/BsTime.cpp:58-78 | when no step is due the answer is 0 iterations with step 0; when one is due the step is at least the fixed step and never longer than the elapsed time |
| FixedStep.PlanAsWritten | Source/Foundation/bsfUtility/Utility/BsTime.cpp:58-78 | the source's computation with both UINT32 casts (lines 62 and 70): 0 iterations with step 0 when no step is due; when one is due the step is at least the fixed step and never longer than the elapsed time; the count always fits in UINT32 |
| FixedStep.PlanIterationBounds | Source/Foundation/bsfUtility/Utility/BsTime.cpp:58-78 | the count is 0 exactly when no step is due (step is then 0); otherwise it is at least 1 and at most MAX_FIXED_UPDATES_PER_FRAME, in both the capped and the uncapped branch |
| FixedStep.PlanCoversElapsed | Source/Foundation/bsfUtility/Utility/BsTime.cpp:61-73 | when a step is due, step * iterations is at least the elapsed time, and step * (iterations - 1) is below it, so there is never a whole step too many |
| FixedStep.PlanStepChoice | Source/Foundation/bsfUtility/Utility/BsTime.cpp:64-73 | when the fixed step needs at most 4 iterations, the result is exactly (that count, fixedStep); when it needs more, the returned step is strictly longer than fixedStep |
| FixedStep.CappedStepIsLeast | Source/Foundation/bsfUtility/Utility/BsTime.cpp:67-70 | the lengthened step is no longer than any step with which 4 iterations cover the elapsed time |
| FixedStep.FirstFixedFrameSkipped | Source/Foundation/bsfUtility/Utility/BsTime.cpp:51-59 | once the fixed clock has been set to the current time, nothing is due: 0 iterations with step 0 |
| FixedStep.AdvanceOnce | Source/Foundation/bsfUtility/Utility/BsTime.cpp:81-84 | one advance is the UINT64 sum of the fixed clock and the step: congruent to last + step modulo 2^64, and exactly last + step when that does not wrap |
| FixedStep.AdvanceRepeatedlySum | Source/Foundation/bsfUtility/Utility/BsTime.cpp:81-84 | n successive advances by step, without wrap-around, move the fixed clock by exactly n * step |
| FixedStep.AdvancingByPlanCatchesUp | Source/Foundation/bsfUtility/Utility/BsTime.cpp:58-84 | advancing the fixed clock by the returned step once per planned iteration brings it to at least the current time, overshooting by less than one step, so an immediate second query finds nothing due |
| FixedStep.PlanAsWrittenAgrees | Source/Foundation/bsfUtility/Utility/BsTime.cpp:62-70 | the source's UINT32 narrowing makes no difference while the elapsed time is at most (2^32 - 1) fixed steps |
| FixedStep.PlanAsWrittenSkipsDueStep | Source/Foundation/bsfUtility/Utility/BsTime.cpp:62-67 | counterexample: with a 1000 µs step and 2^32 ms elapsed, the source's computation returns 0 iterations although a step is due, while the corrected rule returns 4 lengthened steps |
| FrameTime.Time.constructor | Source/Foundation/bsfUtility/Utility/BsTime.cpp:14-20 | a new clock has the last frame time read from the timer, both first-frame flags set, and zero counters |
| FrameTime.Time.Update | Source/Foundation/bsfUtility/Utility/BsTime.cpp:27-45 | clears the first-frame flag; sets the last frame time to the reading; sets the milliseconds since start to reading / 1000; increments the frame counter by exactly 1; leaves the fixed-update state unchanged |
| FrameTime.Time.GetFixedUpdateStep | Source/Foundation/bsfUtility/Utility/BsTime.cpp:47-79 | on the first call, sets the fixed clock to the reading, clears the flag and returns (0, 0); in all cases returns the corrected rule `Plan` applied to the resulting fixed clock, and equals the source's narrowing computation `PlanAsWritten` whenever the elapsed time is at most (2^32 - 1) fixed steps; so 0..4 iterations, 0 exactly when nothing is due, and coverage of the elapsed time; the per-frame state is unchanged |
| FrameTime.Time.AdvanceFixedUpdate | Source/Foundation/bsfUtility/Utility/BsTime.cpp:81-84 | adds step to the last fixed update time with UINT64 wrap-around (exactly step when the sum does not wrap); no other field changes |

## Findings

| source | as written | input that shows it | evidently intended | confidence | as-written member | corrected member |
|---|---|---|---|---|---|---|
| Source/Foundation/bsfUtility/Utility/BsTime.cpp:62-67 | the fixed-step count is cast to UINT32 (reduced modulo 2^32) before it is compared with MAX_FIXED_UPDATES_PER_FRAME | fixed step 1000 µs, last fixed update 0, current time 4,294,967,296,000 µs (2^32 ms, about 49.7 days): the count 2^32 narrows to 0, the cap is skipped, and the result is 0 iterations with step 1000 although a step is due | compare the full count with the cap, so 4 steps of 1,073,741,824,000 µs cover the interval | not executed; high that the arithmetic is as shown, low that such a gap occurs in practice | FixedStep.PlanAsWrittenSkipsDueStep | FixedStep.PlanIterationBounds |

`FixedStep.PlanAsWritten` models the code as written. `FixedStep.Plan` is the corrected
rule. Class `Time` uses `Plan`. `FixedStep.PlanAsWrittenAgrees` shows that the two
agree whenever fewer than 2^32 fixed steps have accumulated.

## Left out

- The float fields `mFrameDelta` and `mTimeSinceStart` and the `MICROSEC_TO_SEC`
  scaling are not modelled (floating point).
- `getCurrentDateTime`, `getCurrentTime` and `getAppStartUpDate` are not modelled. They
  only format the OS calendar time with `std::time`, `strftime`, `gmtime` and
  `localtime`.
- The `Timer` object, `getTimePrecise`, the destructor, `mAppStartTime` and
  `mAppStartUpDate` are not modelled. The timer is a foreign clock, and its readings are
  parameters instead.
- The `gTime()` singleton is not modelled. The atomic `fetch_add` and its relaxed memory
  ordering are not modelled either; only the counter increment is.
- FrameTime.Time.constructor: the initial values of the flags, counters, last fixed
  update time and fixed step come from member initialisers in BsTime.h. BsTime.h is not
  part of this model, so the model assumes flags set and counters zero, and takes the
  fixed step as a parameter.
- FrameTime.Time.Update: the width of the frame counter is declared in BsTime.h, which
  is not part of this model. The counter is unbounded, so a wrap-around after 2^N frames
  is not modelled.
- FrameTime.Time.GetFixedUpdateStep: it requires timestamps and the fixed step below
  2^62 µs and a positive fixed step. The source can overflow once the UINT64 sum
  `last + fixedStep` reaches 2^64 (line 58), once a value cast to INT64 reaches 2^63
  (lines 61, 62 and 66), or once a ceiling-division sum `n + d - 1` reaches 2^63
  (lines 62 and 69). 2^62 is a round bound below which none of these can happen, so the
  model also excludes some larger inputs that the source handles without overflow. A
  zero fixed step would divide by zero.
- FrameTime.Time.GetFixedUpdateStep: it follows the corrected rule `FixedStep.Plan`, not
  the source's computation `FixedStep.PlanAsWritten`. The two differ when the count of
  fixed steps is at least 2^32 and its remainder modulo 2^32 is 0 to 4. There the source
  returns that remainder with the fixed step, and the model returns at most 4 lengthened
  steps. Whenever the elapsed time is at most (2^32 - 1) fixed steps, the method's
  postcondition equates its result with `PlanAsWritten`.
- Math::divideAndRoundUp is in BsMath.h, which is not part of this model. It is taken to
  be `(n + d - 1) / d`, as its name says.
