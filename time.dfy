/**
 * The frame clock: per-frame bookkeeping (first-frame flag, last frame time,
 * milliseconds since start, frame counter) and the fixed-update clock that the
 * fixed-timestep rule of module FixedStep schedules. Clock readings arrive as
 * parameters in microseconds.
 */
module FrameTime {
  import opened FixedStep

  /** The per-frame part of the clock's state. */
  datatype FrameState = FrameState(firstFrame: bool, lastFrameTime: int, timeSinceStartMs: int, currentFrame: nat)

  /** The fixed-update part of the clock's state. */
  datatype FixedState = FixedState(firstFixedFrame: bool, lastFixedUpdateTime: int, fixedStep: int)

  class Time {
    var firstFrame: bool
    var lastFrameTime: int
    var timeSinceStartMs: int
    var currentFrame: nat

    var firstFixedFrame: bool
    var lastFixedUpdateTime: int
    var fixedStep: int

    /** Every timestamp is a UINT64 value and the fixed step is positive. */
    ghost predicate Valid()
      reads this
    {
      IsU64(lastFrameTime) && IsU64(timeSinceStartMs) && IsU64(lastFixedUpdateTime) &&
      0 < fixedStep < TIME_LIMIT
    }

    ghost function Frame(): FrameState
      reads this
    {
      FrameState(firstFrame, lastFrameTime, timeSinceStartMs, currentFrame)
    }

    ghost function Fixed(): FixedState
      reads this
    {
      FixedState(firstFixedFrame, lastFixedUpdateTime, fixedStep)
    }

    /** A fresh clock: both first-frame flags set, the last frame time read from the clock. */
    constructor (startTime: int, step: int)
      requires IsU64(startTime) && 0 < step < TIME_LIMIT
      ensures Valid()
      ensures Frame() == FrameState(true, startTime, 0, 0)
      ensures Fixed() == FixedState(true, 0, step)
    {
      firstFrame := true;
      lastFrameTime := startTime;
      timeSinceStartMs := 0;
      currentFrame := 0;
      firstFixedFrame := true;
      lastFixedUpdateTime := 0;
      fixedStep := step;
    }

    /**
     * Start of a frame: clears the first-frame flag, records the frame time,
     * converts it to whole milliseconds and counts the frame. The fixed-update
     * clock is not touched.
     */
    method Update(currentFrameTime: int)
      requires Valid() && IsU64(currentFrameTime)
      modifies this`firstFrame, this`lastFrameTime, this`timeSinceStartMs, this`currentFrame
      ensures Valid()
      ensures !firstFrame
      ensures lastFrameTime == currentFrameTime
      ensures timeSinceStartMs == currentFrameTime / 1000
      ensures timeSinceStartMs * 1000 <= currentFrameTime < (timeSinceStartMs + 1) * 1000
      ensures currentFrame == old(currentFrame) + 1
      ensures Fixed() == old(Fixed())
    {
      if firstFrame {
        firstFrame := false;
      }
      timeSinceStartMs := currentFrameTime / 1000;
      lastFrameTime := currentFrameTime;
      currentFrame := currentFrame + 1;
    }

    /**
     * How many fixed steps to run this frame and how long each is. The first
     * query only starts the fixed-update clock at the current time and runs
     * nothing; afterwards the answer is the corrected fixed-timestep rule Plan
     * applied to the last fixed update time, which equals the source's
     * narrowing computation PlanAsWritten whenever fewer than 2^32 fixed steps
     * have accumulated. The per-frame state is not touched.
     */
    method GetFixedUpdateStep(currentTime: int) returns (iterations: nat, step: nat)
      requires Valid() && 0 <= currentTime < TIME_LIMIT
      requires firstFixedFrame || lastFixedUpdateTime < TIME_LIMIT
      modifies this`firstFixedFrame, this`lastFixedUpdateTime
      ensures Valid() && !firstFixedFrame && fixedStep == old(fixedStep)
      ensures lastFixedUpdateTime == if old(firstFixedFrame) then currentTime else old(lastFixedUpdateTime)
      ensures StepPlan(iterations, step) == Plan(lastFixedUpdateTime, fixedStep, currentTime)
      ensures currentTime - lastFixedUpdateTime <= fixedStep * (UINT32_LIMIT - 1) ==>
                StepPlan(iterations, step) == PlanAsWritten(lastFixedUpdateTime, fixedStep, currentTime)
      ensures old(firstFixedFrame) ==> iterations == 0 && step == 0
      ensures 0 <= iterations <= MAX_FIXED_UPDATES_PER_FRAME
      ensures iterations == 0 <==> !IsDue(lastFixedUpdateTime, fixedStep, currentTime)
      ensures iterations > 0 ==> step * iterations >= currentTime - lastFixedUpdateTime
      ensures Frame() == old(Frame())
    {
      if firstFixedFrame {
        lastFixedUpdateTime := currentTime;
        firstFixedFrame := false;
        FirstFixedFrameSkipped(fixedStep, currentTime);
      }
      var p := Plan(lastFixedUpdateTime, fixedStep, currentTime);
      PlanIterationBounds(lastFixedUpdateTime, fixedStep, currentTime);
      if p.iterations > 0 {
        PlanCoversElapsed(lastFixedUpdateTime, fixedStep, currentTime);
      }
      if currentTime - lastFixedUpdateTime <= fixedStep * (UINT32_LIMIT - 1) {
        PlanAsWrittenAgrees(lastFixedUpdateTime, fixedStep, currentTime);
      }
      iterations, step := p.iterations, p.step;
    }

    /** Moves the fixed-update clock forward by one step, with UINT64 wrap-around. */
    method AdvanceFixedUpdate(step: int)
      requires Valid() && IsU64(step)
      modifies this`lastFixedUpdateTime
      ensures Valid()
      ensures lastFixedUpdateTime == AdvanceOnce(old(lastFixedUpdateTime), step)
      ensures old(lastFixedUpdateTime) + step < UINT64_LIMIT ==> lastFixedUpdateTime == old(lastFixedUpdateTime) + step
      ensures firstFixedFrame == old(firstFixedFrame) && fixedStep == old(fixedStep)
      ensures Frame() == old(Frame())
    {
      lastFixedUpdateTime := (lastFixedUpdateTime + step) % UINT64_LIMIT;
    }
  }
}
