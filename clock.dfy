/**
 * The per-step clock of `advance_step` (src/simulation.cpp:125-154): simulated
 * time, step and frame counters, the one-shot ramp-up regime driven by
 * `init_frame_steps`, and the wait-frame counter that delays the first frame
 * advances. The functions here are the specification the `Simulation` class
 * methods are proved against; the lemmas state what the state machine promises
 * over one step and over whole runs.
 */
module Clocks {

  /** The clock fields of the simulation that `advance_step` updates. */
  datatype Clock = Clock(
    time: real,
    step: int,
    frame: int,
    stepTime: real,
    initFrameSteps: int,
    initWaitFrames: int)

  /** The configured cadence: duration of a frame and steps per frame. */
  datatype Cadence = Cadence(frameTime: real, frameSteps: int)
  {
    predicate Valid() { frameSteps > 0 }

    /** The nominal step size, installed when ramp-up ends. */
    function NominalStep(): real
      requires Valid()
    {
      frameTime / frameSteps as real
    }
  }

  function Max(a: int, b: int): int { if a >= b then a else b }

  /**
   * C++ `%` on `int`: truncates toward zero, so the remainder takes the sign
   * of the dividend (Dafny's own `%` is Euclidean).
   */
  function CRem(a: int, b: int): int
    requires b > 0
  {
    if a >= 0 then a % b else -((-a) % b)
  }

  /** The source only ever compares a remainder with 0, where the two agree. */
  lemma CRemZero(a: int, b: int)
    requires b > 0
    ensures CRem(a, b) == 0 <==> a % b == 0
  {
    if a < 0 {
      var q := (-a) / b;
      if (-a) % b == 0 {
        assert a == (-q) * b;
        DivModUnique(a, b, -q, 0);
      } else {
        var r := (-a) % b;
        assert a == (-q - 1) * b + (b - r);
        DivModUnique(a, b, -q - 1, b - r);
      }
    }
  }

  lemma DivModUnique(a: int, d: int, q: int, r: int)
    requires d > 0 && 0 <= r < d && a == q * d + r
    ensures a / d == q && a % d == r
  {
    var q', r' := a / d, a % d;
    assert (q - q') * d == r' - r;
    MulOutside(q - q', d);
  }

  lemma MulOutside(k: int, d: int)
    requires d > 0
    ensures k >= 1 ==> k * d >= d
    ensures k <= -1 ==> k * d <= -d
  {
    if k >= 1 {
      assert k * d == (k - 1) * d + d;
    } else if k <= -1 {
      assert k * d == (k + 1) * d - d;
    }
  }

  /** Lines 126-127: time advances by the step size in force, the step counter by one. */
  function Tick(c: Clock): Clock
  {
    c.(time := c.time + c.stepTime, step := c.step + 1)
  }

  /**
   * Lines 137-152, run after `Tick`: the new clock and whether `remeshing_step`
   * is called. In ramp-up only step `init_frame_steps + 1` does anything: it ends
   * ramp-up, installs the nominal step size, remeshes and advances the frame
   * unless frames are still being waited for (the wait counter is left alone).
   * In the steady regime a frame boundary remeshes, then decrements the wait
   * counter (never below 0), then advances the frame if the counter is 0.
   */
  function FrameLogic(c: Clock, cd: Cadence): (Clock, bool)
    requires cd.Valid()
  {
    if c.initFrameSteps != 0 then
      if c.step == c.initFrameSteps + 1 then
        var c1 := c.(initFrameSteps := 0, stepTime := cd.NominalStep());
        (if c1.initWaitFrames == 0 then c1.(frame := c1.frame + 1) else c1, true)
      else
        (c, false)
    else if CRem(c.step - 1, cd.frameSteps) == 0 then
      var w := Max(0, c.initWaitFrames - 1);
      (c.(initWaitFrames := w, frame := if w == 0 then c.frame + 1 else c.frame), true)
    else
      (c, false)
  }

  /**
   * The clock part of one `advance_step`: the new clock and whether the step
   * remeshes.
   */
  function AdvanceClock(c: Clock, cd: Cadence): (r: (Clock, bool))
    requires cd.Valid()
    ensures r.0.step == c.step + 1 && r.0.time == c.time + c.stepTime
    ensures c.frame <= r.0.frame <= c.frame + 1
    ensures r.0.frame == c.frame + 1 ==> r.1
    ensures c.initWaitFrames >= 0 ==> 0 <= r.0.initWaitFrames <= c.initWaitFrames
    ensures c.initFrameSteps == 0 ==> r.0.initFrameSteps == 0 && r.0.stepTime == c.stepTime
    ensures r.0.initFrameSteps == 0 || r.0.initFrameSteps == c.initFrameSteps
    ensures r.0.stepTime == c.stepTime || r.0.stepTime == cd.NominalStep()
  {
    FrameLogic(Tick(c), cd)
  }

  /**
   * In ramp-up, a step other than `init_frame_steps + 1` changes nothing but
   * time and step; that step ends ramp-up for good, installs the nominal step
   * size and remeshes, and advances the frame exactly when no wait frames are
   * left, without touching the wait counter.
   */
  lemma RampUpStep(c: Clock, cd: Cadence)
    requires cd.Valid() && c.initFrameSteps != 0
    ensures var (r, remesh) := AdvanceClock(c, cd);
      && (c.step + 1 != c.initFrameSteps + 1 ==> r == Tick(c) && !remesh)
      && (c.step + 1 == c.initFrameSteps + 1 ==>
            && remesh
            && r.initFrameSteps == 0
            && r.stepTime == cd.NominalStep()
            && r.initWaitFrames == c.initWaitFrames
            && (r.frame == c.frame + 1 <==> c.initWaitFrames == 0))
  {
  }

  /**
   * In the steady regime a step remeshes exactly on a frame boundary
   * (`(step - 1) % frame_steps == 0` for the new step); only then does the wait
   * counter drop by one (not below 0), and the frame advances exactly when the
   * decremented counter is 0.
   */
  lemma SteadyStep(c: Clock, cd: Cadence)
    requires cd.Valid() && c.initFrameSteps == 0
    ensures var (r, remesh) := AdvanceClock(c, cd);
      && (remesh <==> c.step % cd.frameSteps == 0)
      && r.initWaitFrames == (if remesh then Max(0, c.initWaitFrames - 1) else c.initWaitFrames)
      && (r.frame == c.frame + 1 <==> remesh && r.initWaitFrames == 0)
      && r.stepTime == c.stepTime
  {
    CRemZero(c.step, cd.frameSteps);
  }

  /** The clock after `n` steps. */
  function Run(c: Clock, cd: Cadence, n: nat): Clock
    requires cd.Valid()
  {
    if n == 0 then c else AdvanceClock(Run(c, cd, n - 1), cd).0
  }

  /** A run of `n + 1` steps is one step followed by a run of `n`. */
  lemma {:induction false} RunFirst(c: Clock, cd: Cadence, n: nat)
    requires cd.Valid()
    ensures Run(c, cd, n + 1) == Run(AdvanceClock(c, cd).0, cd, n)
  {
    if n > 0 {
      RunFirst(c, cd, n - 1);
    }
  }

  /**
   * Ramp-up ends exactly once: in a run started at step 0 with
   * `init_frame_steps = k > 0`, the first `k` steps keep the initial step size
   * and the frame counter, and every step from `k + 1` on runs in the steady
   * regime with the nominal step size.
   */
  lemma {:induction false} RampUpOnce(c: Clock, cd: Cadence, j: nat)
    requires cd.Valid() && c.step == 0 && c.initFrameSteps > 0
    ensures Run(c, cd, j).step == j
    ensures j <= c.initFrameSteps ==> (Run(c, cd, j).initFrameSteps == c.initFrameSteps
                                       && Run(c, cd, j).stepTime == c.stepTime
                                       && Run(c, cd, j).frame == c.frame)
    ensures j > c.initFrameSteps ==> (Run(c, cd, j).initFrameSteps == 0
                                      && Run(c, cd, j).stepTime == cd.NominalStep())
  {
    if j > 0 {
      RampUpOnce(c, cd, j - 1);
      var p := Run(c, cd, j - 1);
      if j - 1 <= c.initFrameSteps {
        RampUpStep(p, cd);
      }
    }
  }

  lemma CeilStep(j: nat, fs: int)
    requires fs > 0
    ensures (j + fs) / fs == (j + fs - 1) / fs + (if j % fs == 0 then 1 else 0)
  {
    var q, r := j / fs, j % fs;
    assert j == q * fs + r;
    DivModUnique(j + fs, fs, q + 1, r);
    if r == 0 {
      DivModUnique(j + fs - 1, fs, q, fs - 1);
    } else {
      DivModUnique(j + fs - 1, fs, q + 1, r - 1);
    }
  }

  /** The clock of a fresh run: step 0, frame 0, no ramp-up and no wait frames. */
  function Fresh(cd: Cadence): Clock
    requires cd.Valid()
  {
    Clock(0.0, 0, 0, cd.NominalStep(), 0, 0)
  }

  /**
   * Without ramp-up or wait frames, after `j` steps from step 0 and frame 0
   * the frame counter is `ceil(j / frame_steps)` (a frame starts on its first
   * step) and time is `j` nominal steps.
   */
  lemma {:induction false} FreshRun(cd: Cadence, j: nat)
    requires cd.Valid()
    ensures Run(Fresh(cd), cd, j)
      == Fresh(cd).(time := j as real * cd.NominalStep(), step := j, frame := (j + cd.frameSteps - 1) / cd.frameSteps)
  {
    if j > 0 {
      FreshRun(cd, j - 1);
      var p := Run(Fresh(cd), cd, j - 1);
      SteadyStep(p, cd);
      CeilStep(j - 1, cd.frameSteps);
      assert (j - 1) as real * cd.NominalStep() + cd.NominalStep() == j as real * cd.NominalStep();
    }
  }

  /** After `N * frame_steps` steps of a fresh run the frame counter is `N`. */
  lemma FramesAfterWholeFrames(cd: Cadence, n: nat)
    requires cd.Valid()
    ensures Run(Fresh(cd), cd, n * cd.frameSteps).frame == n
  {
    FreshRun(cd, n * cd.frameSteps);
    DivModUnique(n * cd.frameSteps + cd.frameSteps - 1, cd.frameSteps, n, cd.frameSteps - 1);
  }

  /**
   * `init_resume`'s fast-forward (src/runphysics.cpp:199-201): frame `n`, time
   * `n * frame_time`, step `n * frame_steps`; the regime fields stay as loaded.
   */
  function FastForward(c: Clock, cd: Cadence, n: int): (r: Clock)
  {
    c.(frame := n, time := n as real * cd.frameTime, step := n * cd.frameSteps)
  }

  /**
   * Resuming a fresh configuration at frame `N` yields exactly the clock an
   * uninterrupted run has after `N` whole frames (exact over reals).
   */
  lemma ResumeMatchesRun(cd: Cadence, n: nat)
    requires cd.Valid()
    ensures FastForward(Fresh(cd), cd, n) == Run(Fresh(cd), cd, n * cd.frameSteps)
  {
    FreshRun(cd, n * cd.frameSteps);
    FramesAfterWholeFrames(cd, n);
    var fs := cd.frameSteps as real;
    assert (n * cd.frameSteps) as real == n as real * fs;
    assert fs * cd.NominalStep() == cd.frameTime;
    assert (n as real * fs) * cd.NominalStep() == n as real * (fs * cd.NominalStep());
  }

  /**
   * A clock still in ramp-up but already past step `init_frame_steps + 1` never
   * leaves ramp-up: the frame counter and step size stay put for good. This is
   * the state `init_resume` produces when the configuration has a ramp-up and
   * the resume step lies beyond it.
   */
  lemma {:induction false} StuckInRampUp(c: Clock, cd: Cadence, j: nat)
    requires cd.Valid() && c.initFrameSteps > 0 && c.step >= c.initFrameSteps + 1
    ensures Run(c, cd, j).frame == c.frame
    ensures Run(c, cd, j).initFrameSteps == c.initFrameSteps
    ensures Run(c, cd, j).stepTime == c.stepTime
    ensures Run(c, cd, j).step == c.step + j
  {
    if j > 0 {
      StuckInRampUp(c, cd, j - 1);
      RampUpStep(Run(c, cd, j - 1), cd);
    }
  }

  lemma ResumeInsideRampUpStalls(c: Clock, cd: Cadence, n: nat, j: nat)
    requires cd.Valid() && c.initFrameSteps > 0 && n * cd.frameSteps >= c.initFrameSteps + 1
    ensures Run(FastForward(c, cd, n), cd, j).frame == n
  {
    StuckInRampUp(FastForward(c, cd, n), cd, j);
  }
}
