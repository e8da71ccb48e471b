/**
 * The decision logic of the batch driver, src/runphysics.cpp: which argument
 * lists are accepted and what they set, when a step saves and under which
 * file names, what the timing log records, when the run stops, and how a
 * resumed run fast-forwards its counters. Files written are recorded as a
 * sequence of `Write`s instead of being written; file contents on disk are a
 * map from path to contents.
 */
module RunPhysics {
  import opened Wrappers
  import opened Format
  import opened Geometry
  import opened Clocks
  import opened Obstacles
  import opened Pipeline
  import opened Simulations

  /** `!s.empty()` and every character a decimal digit. */
  predicate Numeral(s: string)
  {
    s != [] && AllDigits(s)
  }

  /** `is_number(s)` (lines 51-56): scan the leading digits, then check that they are all of `s`. */
  method IsNumber(s: string) returns (b: bool)
    ensures b <==> Numeral(s)
  {
    var i := 0;
    while i < |s| && IsDigit(s[i])
      invariant 0 <= i <= |s|
      invariant forall k :: 0 <= k < i ==> IsDigit(s[k])
    {
      i := i + 1;
    }
    b := s != [] && i == |s|;
  }

  /** What the driver writes, in order. */
  datatype Write =
    | MeshFiles(prefix: string, meshes: seq<Mesh>)
    | TransformFile(path: string, trans: Transformation)

  /**
   * The file prefix `save(meshes, frame, non_rigid)` (lines 80-87) writes the
   * cloth meshes under, or none when there is no output directory or the frame
   * number has five digits or more.
   */
  function MeshPrefix(outprefix: string, frame: int, nonRigid: bool): Option<string>
  {
    if outprefix != [] && frame < 10000 then
      Some(outprefix + "/" + (if nonRigid then "cloth" else "") + Padded(frame, 4))
    else
      None
  }

  /**
   * Meshes are saved exactly when there is an output directory and the frame
   * is below 10000, and then the name ends in exactly four digits that read
   * back as the frame number.
   */
  lemma MeshPrefixFourDigits(outprefix: string, frame: nat, nonRigid: bool)
    ensures MeshPrefix(outprefix, frame, nonRigid).Some? <==> outprefix != [] && frame < 10000
    ensures MeshPrefix(outprefix, frame, nonRigid).Some? ==>
      var head := outprefix + "/" + (if nonRigid then "cloth" else "");
      var p := MeshPrefix(outprefix, frame, nonRigid).value;
      && |p| == |head| + 4
      && p[..|head|] == head
      && AllDigits(p[|head|..])
      && Atoi(p[|head|..]) == frame
  {
    if outprefix != [] && frame < 10000 {
      var head := outprefix + "/" + (if nonRigid then "cloth" else "");
      var p := MeshPrefix(outprefix, frame, nonRigid).value;
      FourDigits(frame);
      PaddedRoundTrip(frame, 4);
      assert p == head + Padded(frame, 4);
      assert p[|head|..] == Padded(frame, 4);
    }
  }

  /** The mesh files `init_resume` reads the cloth back from (line 209). */
  function ResumePrefix(outprefix: string, frame: int): string
  {
    outprefix + "/" + Padded(frame, 4)
  }

  /**
   * A resumed run reads back what a rigid run saved for that frame, but never
   * what a non-rigid run saved: those files carry the `cloth` tag.
   */
  lemma ResumeReadsRigidSavesOnly(outprefix: string, frame: nat)
    requires outprefix != [] && frame < 10000
    ensures MeshPrefix(outprefix, frame, false) == Some(ResumePrefix(outprefix, frame))
    ensures MeshPrefix(outprefix, frame, true) != Some(ResumePrefix(outprefix, frame))
  {
    FourDigits(frame);
    var head := outprefix + "/";
    var saved := MeshPrefix(outprefix, frame, true).value;
    var read := ResumePrefix(outprefix, frame);
    assert head + "" == head;
    assert saved == head + "cloth" + Padded(frame, 4);
    assert read == head + Padded(frame, 4);
    assert saved[|head|] == 'c';
    assert read[|head|] == Padded(frame, 4)[0];
    assert IsDigit(read[|head|]);
  }

  /** `%s/%04dobs%02d.txt`: the transform file of obstacle `o` at `frame` (line 96-97). */
  function TransformPath(outprefix: string, frame: int, o: int): string
  {
    outprefix + "/" + Padded(frame, 4) + "obs" + Padded(o, 2) + ".txt"
  }

  /** Distinct obstacles write distinct transform files. */
  lemma TransformPathsDistinct(outprefix: string, frame: int, o1: nat, o2: nat)
    requires o1 != o2
    ensures TransformPath(outprefix, frame, o1) != TransformPath(outprefix, frame, o2)
  {
    var head := outprefix + "/" + Padded(frame, 4) + "obs";
    var p1, p2 := TransformPath(outprefix, frame, o1), TransformPath(outprefix, frame, o2);
    PaddedRoundTrip(o1, 2);
    PaddedRoundTrip(o2, 2);
    assert p1 == head + Padded(o1, 2) + ".txt";
    assert p2 == head + Padded(o2, 2) + ".txt";
    assert p1[|head|..|p1| - 4] == Padded(o1, 2);
    assert p2[|head|..|p2| - 4] == Padded(o2, 2);
    assert Padded(o1, 2) != Padded(o2, 2);
  }

  /**
   * The transformation saved for an obstacle at `time` (lines 93-95): the
   * identity without a motion curve, else the curve's transformation
   * (`get_dtrans(spline, time).first`).
   */
  function TransformAt(spline: Option<Motion>, time: real): Transformation
  {
    if spline.Some? then spline.value.trans(time) else Identity
  }

  /** The file `save_obstacle_transforms` writes for obstacle `ob`, the `o`-th (lines 92-97). */
  function TransformFileOf(outprefix: string, frame: int, time: real): (nat, Obstacle) -> Write
  {
    (o: nat, ob: Obstacle) => TransformFile(TransformPath(outprefix, frame, o), TransformAt(ob.spline, time))
  }

  /** `f(k, xs[k])` for the first `n` elements, in order. */
  function MapIndexed<T, U>(xs: seq<T>, f: (nat, T) -> U, n: nat): seq<U>
    requires n <= |xs|
  {
    if n == 0 then [] else MapIndexed(xs, f, n - 1) + [f(n - 1, xs[n - 1])]
  }

  lemma {:induction false} MapIndexedIndex<T, U>(xs: seq<T>, f: (nat, T) -> U, n: nat)
    requires n <= |xs|
    ensures |MapIndexed(xs, f, n)| == n
    ensures forall k :: 0 <= k < n ==> MapIndexed(xs, f, n)[k] == f(k, xs[k])
  {
    if n > 0 {
      MapIndexedIndex(xs, f, n - 1);
    }
  }

  /** What `save_obstacle_transforms` writes: one file per obstacle, or nothing under the guard. */
  function TransformWrites(outprefix: string, obs: seq<Obstacle>, frame: int, time: real): (ws: seq<Write>)
    ensures |ws| == if outprefix != [] && frame < 10000 then |obs| else 0
    ensures forall o :: 0 <= o < |ws| ==>
      ws[o] == TransformFile(TransformPath(outprefix, frame, o), TransformAt(obs[o].spline, time))
  {
    MapIndexedIndex(obs, TransformFileOf(outprefix, frame, time), |obs|);
    if outprefix != [] && frame < 10000 then MapIndexed(obs, TransformFileOf(outprefix, frame, time), |obs|) else []
  }

  /** `save_obstacle_transforms(obs, frame, time)` (lines 89-100). */
  method SaveObstacleTransforms(outprefix: string, obs: seq<Obstacle>, frame: int, time: real) returns (ws: seq<Write>)
    ensures ws == TransformWrites(outprefix, obs, frame, time)
  {
    ws := [];
    if outprefix != [] && frame < 10000 {
      ws := TransformEach(outprefix, obs, frame, time);
    }
  }

  /** The loop of `save_obstacle_transforms` (lines 91-98): one file per obstacle, in order. */
  method TransformEach(outprefix: string, obs: seq<Obstacle>, frame: int, time: real) returns (ws: seq<Write>)
    ensures ws == MapIndexed(obs, TransformFileOf(outprefix, frame, time), |obs|)
  {
    ws := [];
    var o := 0;
    while o < |obs|
      invariant 0 <= o <= |obs| && ws == MapIndexed(obs, TransformFileOf(outprefix, frame, time), o)
    {
      var trans := Identity;
      if obs[o].spline.Some? {
        trans := obs[o].spline.value.trans(time);
      }
      ws := ws + [TransformFile(TransformPath(outprefix, frame, o), trans)];
      o := o + 1;
    }
  }

  /** Within one save, no two transform files share a name. */
  lemma TransformWritesDistinct(outprefix: string, obs: seq<Obstacle>, frame: int, time: real, i: nat, j: nat)
    requires i < j < |TransformWrites(outprefix, obs, frame, time)|
    ensures TransformWrites(outprefix, obs, frame, time)[i].path != TransformWrites(outprefix, obs, frame, time)[j].path
  {
    TransformPathsDistinct(outprefix, frame, i, j);
  }

  /** `save(meshes, frame, non_rigid)` (lines 80-87). */
  function MeshWrites(outprefix: string, meshes: seq<Mesh>, frame: int, nonRigid: bool): seq<Write>
  {
    var p := MeshPrefix(outprefix, frame, nonRigid);
    if p.Some? then [MeshFiles(p.value, meshes)] else []
  }

  /** `save(sim, frame)` (lines 114-119): the cloth meshes, then the obstacle transforms in rigid mode. */
  function SaveWrites(outprefix: string, sim: Simulation, frame: int): (ws: seq<Write>)
    reads sim
  {
    MeshWrites(outprefix, sim.cloths, frame, sim.nonRigid)
      + (if sim.nonRigid then [] else TransformWrites(outprefix, sim.obstacles, frame, sim.time))
  }

  /**
   * What a save writes: nothing at all without an output directory or from
   * frame 10000 on; otherwise the cloth meshes first, then, in rigid mode only,
   * one transform file per obstacle.
   */
  lemma SaveWritesShape(outprefix: string, sim: Simulation, frame: int)
    ensures outprefix == [] || frame >= 10000 ==> SaveWrites(outprefix, sim, frame) == []
    ensures outprefix != [] && frame < 10000 ==>
      && |SaveWrites(outprefix, sim, frame)| == 1 + (if sim.nonRigid then 0 else |sim.obstacles|)
      && SaveWrites(outprefix, sim, frame)[0] == MeshFiles(MeshPrefix(outprefix, frame, sim.nonRigid).value, sim.cloths)
      && forall o :: 1 <= o < |SaveWrites(outprefix, sim, frame)| ==>
           SaveWrites(outprefix, sim, frame)[o].TransformFile?
  {
  }

  /** `save(sim, frame)` (lines 114-119). */
  method Save(outprefix: string, sim: Simulation, frame: int) returns (ws: seq<Write>)
    ensures ws == SaveWrites(outprefix, sim, frame)
  {
    ws := [];
    if outprefix != [] && frame < 10000 {
      var prefix := outprefix + "/" + (if sim.nonRigid then "cloth" else "") + Padded(frame, 4);
      ws := [MeshFiles(prefix, sim.cloths)];
    }
    if !sim.nonRigid {
      var ts := SaveObstacleTransforms(outprefix, sim.obstacles, frame, sim.time);
      ws := ws + ts;
    }
  }

  /** Entry `k` of a line of the timing file, 0 where the line is short. */
  function Entry(line: seq<real>, k: nat): real
  {
    if k < |line| then line[k] else 0.0
  }

  /** Column `k` of the timing file summed over its lines. */
  function ColumnSum(lines: seq<seq<real>>, k: nat): real
  {
    if lines == [] then 0.0 else Entry(lines[0], k) + ColumnSum(lines[1..], k)
  }

  lemma {:induction false} ColumnSumAppend(lines: seq<seq<real>>, line: seq<real>, k: nat)
    ensures ColumnSum(lines + [line], k) == ColumnSum(lines, k) + Entry(line, k)
  {
    if lines != [] {
      assert (lines + [line])[1..] == lines[1..] + [line];
      ColumnSumAppend(lines[1..], line, k);
    }
  }

  /** The line `save_timings` prints: per module, the time spent since the previous line. */
  function Deltas(olds: seq<real>, totals: seq<real>): (r: seq<real>)
    requires |olds| == |totals|
    ensures |r| == |totals|
    ensures forall i :: 0 <= i < |r| ==> olds[i] + r[i] == totals[i]
  {
    seq(|totals|, i requires 0 <= i < |totals| => totals[i] - olds[i])
  }

  /** The lines printed by successive `save_timings` calls that see the totals `snaps`, starting from `olds`. */
  function DeltaLines(olds: seq<real>, snaps: seq<seq<real>>): seq<seq<real>>
    requires forall s :: s in snaps ==> |s| == |olds|
    decreases |snaps|
  {
    if snaps == [] then [] else [Deltas(olds, snaps[0])] + DeltaLines(snaps[0], snaps[1..])
  }

  /**
   * The timing file telescopes: summed over the lines printed from the start
   * of a run, each module's column is that module's total time at the last
   * call.
   */
  lemma {:induction false} TimingColumnsTelescope(olds: seq<real>, snaps: seq<seq<real>>, k: nat)
    requires forall s :: s in snaps ==> |s| == |olds|
    requires snaps != [] && k < |olds|
    ensures olds[k] + ColumnSum(DeltaLines(olds, snaps), k) == snaps[|snaps| - 1][k]
    decreases |snaps|
  {
    assert snaps[0] in snaps;
    var rest := snaps[1..];
    assert forall s :: s in rest ==> s in snaps;
    if rest != [] {
      TimingColumnsTelescope(snaps[0], rest, k);
      assert rest[|rest| - 1] == snaps[|snaps| - 1];
    }
  }

  /**
   * The timing file of a rigid run with an output directory, and the static
   * `old_totals` of `save_timings`: the module totals at the last line printed.
   */
  class TimingLog {
    const isOpen: bool
    const oldTotals: array<real>
    var lines: seq<seq<real>>

    /** What has been printed, column by column, adds up to `old_totals`. */
    ghost predicate Valid()
      reads this, oldTotals
    {
      && oldTotals.Length == NModules
      && forall k :: 0 <= k < NModules ==> ColumnSum(lines, k) == oldTotals[k]
    }

    /** A log before the first line: `old_totals` all zero. */
    constructor (isOpen: bool)
      ensures Valid() && this.isOpen == isOpen && lines == []
      ensures oldTotals[..] == seq(NModules, k => 0.0)
    {
      this.isOpen := isOpen;
      oldTotals := new real[NModules](k => 0.0);
      lines := [];
    }

    /**
     * `save_timings()` (lines 102-112): without an open file nothing is
     * printed and the model leaves `old_totals` alone; otherwise the line of
     * per-module deltas is printed and `old_totals` catches up with the totals.
     */
    method SaveTimings(totals: seq<real>)
      requires Valid() && |totals| == NModules
      modifies this, oldTotals
      ensures Valid()
      ensures !isOpen ==> lines == old(lines) && oldTotals[..] == old(oldTotals[..])
      ensures isOpen ==> lines == old(lines) + [Deltas(old(oldTotals[..]), totals)] && oldTotals[..] == totals
    {
      if !isOpen {
        return;
      }
      ghost var olds := oldTotals[..];
      assert forall k :: 0 <= k < NModules ==> ColumnSum(lines, k) == olds[k];
      var line := [];
      var i := 0;
      while i < NModules
        invariant 0 <= i <= NModules && |line| == i && lines == old(lines)
        invariant forall k :: 0 <= k < i ==> line[k] == totals[k] - olds[k] && oldTotals[k] == totals[k]
        invariant forall k :: i <= k < NModules ==> oldTotals[k] == olds[k]
      {
        line := line + [totals[i] - oldTotals[i]];
        oldTotals[i] := totals[i];
        i := i + 1;
      }
      assert line == Deltas(olds, totals);
      assert oldTotals[..] == totals;
      forall k | 0 <= k < NModules
        ensures ColumnSum(lines + [line], k) == oldTotals[k]
      {
        ColumnSumAppend(lines, line, k);
      }
      lines := lines + [line];
    }
  }

  /**
   * C++ `a % b == 0` for any nonzero `b`: truncating division makes the
   * remainder by `-b` the same as by `b`.
   */
  predicate CDivides(a: int, b: int)
    requires b != 0
  {
    CRem(a, if b < 0 then -b else b) == 0
  }

  /**
   * The save decision of `sim_step` (lines 136-148), on the clock after the
   * step: in non-rigid mode every `init_frame_steps` steps (every
   * `frame_steps` once ramp-up is over) from step 1 on, and only with at most
   * one wait frame left; in rigid mode every `frame_steps` steps.
   */
  predicate SavesAfter(c: Clock, cd: Cadence, nonRigid: bool)
    requires cd.Valid()
  {
    if nonRigid then
      var fs := if c.initFrameSteps != 0 then c.initFrameSteps else cd.frameSteps;
      c.initWaitFrames <= 1 && c.step > 0 && CDivides(c.step, fs)
    else
      CDivides(c.step, cd.frameSteps)
  }

  /** The stop test of `sim_step` (lines 150-154), on the clock after the step. */
  predicate Finishes(c: Clock, endTime: real, endFrame: real, numFrames: int)
  {
    c.time >= endTime || c.frame as real >= endFrame || c.frame == numFrames
  }

  /**
   * In a rigid run from `Fresh` (step 0, frame 0, no ramp-up and no wait
   * frames) the save after step `j` happens exactly when `j` is
   * a whole number of frames `n`; it is then saved as frame `n`, and its clock
   * is the one a run resumed at frame `n` starts from.
   */
  lemma RigidSavesWholeFrames(cd: Cadence, j: nat)
    requires cd.Valid()
    ensures SavesAfter(Run(Fresh(cd), cd, j), cd, false) <==> j % cd.frameSteps == 0
    ensures j % cd.frameSteps == 0 ==>
      && Run(Fresh(cd), cd, j).frame == j / cd.frameSteps
      && Run(Fresh(cd), cd, j) == FastForward(Fresh(cd), cd, j / cd.frameSteps)
  {
    FreshRun(cd, j);
    CRemZero(j, cd.frameSteps);
    if j % cd.frameSteps == 0 {
      var n := j / cd.frameSteps;
      assert j == n * cd.frameSteps;
      ResumeMatchesRun(cd, n);
    }
  }

  /**
   * With `num_frames = N`, a run from `Fresh` (step 0, frame 0, no ramp-up and
   * no wait frames) stops at the first step of frame `N`
   * (step `(N - 1) * frame_steps + 1`) and not earlier; that step saves only
   * when a frame is a single step, so otherwise the files run from frame 0 to
   * frame `N - 1`.
   */
  lemma FrameLimitStop(cd: Cadence, n: nat)
    requires cd.Valid() && n >= 1
    ensures Run(Fresh(cd), cd, (n - 1) * cd.frameSteps + 1).frame == n
    ensures forall i :: 0 <= i < (n - 1) * cd.frameSteps + 1 ==> Run(Fresh(cd), cd, i).frame < n
    ensures SavesAfter(Run(Fresh(cd), cd, (n - 1) * cd.frameSteps + 1), cd, false) <==> cd.frameSteps == 1
  {
    var fs := cd.frameSteps;
    var j := (n - 1) * fs + 1;
    FreshRun(cd, j);
    StepStartsFrame(fs, n);
    forall i | 0 <= i < j
      ensures Run(Fresh(cd), cd, i).frame < n
    {
      FreshRun(cd, i);
      EarlierFrame(fs, n, i);
    }
    RigidSavesWholeFrames(cd, j);
  }

  /**
   * Ramp-up moves the frame limit: with `frame_steps = 2` and
   * `init_frame_steps = 3` and no wait frames, a rigid run from step 0 first
   * reaches frame 1 at step 4 rather than step 1, and that step saves, so with
   * `num_frames = 1` frames 0 and 1 are both saved.
   */
  lemma {:induction false} RampUpShiftsFrameLimit(stepTime: real)
    ensures var cd := Cadence(1.0, 2);
      var c0 := Clock(0.0, 0, 0, stepTime, 3, 0);
      && (forall i :: 0 <= i < 4 ==> Run(c0, cd, i).frame == 0)
      && Run(c0, cd, 4).frame == 1
      && SavesAfter(Run(c0, cd, 4), cd, false)
  {
    var cd := Cadence(1.0, 2);
    var c0 := Clock(0.0, 0, 0, stepTime, 3, 0);
    assert Run(c0, cd, 1).step == 1 && Run(c0, cd, 1).frame == 0 && Run(c0, cd, 1).initFrameSteps == 3;
    assert Run(c0, cd, 2).step == 2 && Run(c0, cd, 2).frame == 0 && Run(c0, cd, 2).initFrameSteps == 3;
    assert Run(c0, cd, 3).step == 3 && Run(c0, cd, 3).frame == 0 && Run(c0, cd, 3).initFrameSteps == 3;
    assert Run(c0, cd, 3).initWaitFrames == 0;
    assert Run(c0, cd, 4).step == 4 && Run(c0, cd, 4).frame == 1;
  }

  lemma StepStartsFrame(fs: int, n: int)
    requires fs > 0 && n >= 1
    ensures ((n - 1) * fs + 1 + fs - 1) / fs == n
    ensures ((n - 1) * fs + 1) % fs == 0 <==> fs == 1
  {
    var j := (n - 1) * fs + 1;
    assert j + fs - 1 == n * fs;
    DivModUnique(j + fs - 1, fs, n, 0);
    if fs > 1 {
      DivModUnique(j, fs, n - 1, 1);
    } else {
      DivModUnique(j, fs, j, 0);
    }
  }

  lemma EarlierFrame(fs: int, n: int, i: int)
    requires fs > 0 && n >= 1 && 0 <= i <= (n - 1) * fs
    ensures (i + fs - 1) / fs < n
  {
    var q, r := (i + fs - 1) / fs, (i + fs - 1) % fs;
    assert i + fs - 1 == q * fs + r;
    assert (n - 1) * fs + fs == n * fs;
    MulMonotone(q, n, fs);
  }

  lemma MulMonotone(a: int, b: int, d: int)
    requires d > 0
    ensures a >= b ==> a * d >= b * d
  {
    MulOutside(a - b, d);
    assert a * d == (a - b) * d + b * d;
  }

  /** What `run_physics` takes from its arguments. */
  datatype RunConfig = RunConfig(scene: string, outprefix: string, numFrames: int)

  /**
   * The argument handling of `run_physics(args)` (lines 162-182): one to three
   * arguments; the scene file first, the output directory second if present,
   * and the frame count from the last argument when it is a numeral, the
   * default otherwise. A numeric second argument of two is both the output
   * directory and the frame count.
   */
  method RunArgs(args: seq<string>, defaultFrames: int) returns (r: Option<RunConfig>)
    ensures r.None? <==> |args| == 0 || |args| > 3
    ensures r.Some? ==>
      && r.value.scene == args[0]
      && r.value.outprefix == (if |args| > 1 then args[1] else "")
      && r.value.numFrames == (if Numeral(args[|args| - 1]) then DigitsValue(args[|args| - 1]) else defaultFrames)
  {
    if |args| == 0 || |args| > 3 {
      return None;
    }
    var numFrames := defaultFrames;
    var last := args[|args| - 1];
    var numeric := IsNumber(last);
    if numeric {
      AtoiOfDigits(last);
      numFrames := Atoi(last);
    }
    var outprefix := if |args| > 1 then args[1] else "";
    return Some(RunConfig(args[0], outprefix, numFrames));
  }

  /** A file system: path to contents. */
  type Files = map<string, string>

  /**
   * `copy_file(input, output)` (lines 227-236): nothing when the two paths
   * are the same; otherwise an existing output is removed, then the input is
   * copied. False where the copy fails because the input does not exist.
   */
  function CopyFile(fs: Files, input: string, output: string): (Files, bool)
  {
    if input == output then (fs, true)
    else
      var fs' := if output in fs then fs - {output} else fs;
      if input in fs' then (fs'[output := fs'[input]], true) else (fs', false)
  }

  /**
   * The copy succeeds exactly when the input exists (or is the output), and
   * then the output holds the input's contents; no other path changes.
   */
  lemma CopyFileEffect(fs: Files, input: string, output: string)
    ensures CopyFile(fs, input, output).1 <==> input in fs || input == output
    ensures input in fs ==> output in CopyFile(fs, input, output).0 && CopyFile(fs, input, output).0[output] == fs[input]
    ensures forall p :: p != output ==> (p in CopyFile(fs, input, output).0 <==> p in fs)
    ensures forall p :: p != output && p in fs ==> CopyFile(fs, input, output).0[p] == fs[p]
  {
  }

  /** `copy_file` without its guard: remove the output, then copy. */
  function CopyUnguarded(fs: Files, input: string, output: string): (Files, bool)
  {
    var fs' := if output in fs then fs - {output} else fs;
    if input in fs' then (fs'[output := fs'[input]], true) else (fs', false)
  }

  /**
   * The guard matters: copying a file onto itself without it deletes the
   * file and then fails, while `copy_file` leaves it as it was.
   */
  lemma SelfCopyNeedsGuard(fs: Files, path: string)
    requires path in fs
    ensures CopyUnguarded(fs, path, path) == (fs - {path}, false)
    ensures CopyFile(fs, path, path) == (fs, true)
  {
  }

  /** How `sim_step` ends: the loop goes on, the run finishes with success, or a keyframe file was missing. */
  datatype Outcome = Continue | Finished | Failed

  /**
   * `sim_step(num_frames)` (lines 121-155): one `advance_step`; then, on the
   * new clock, the save of the current frame (with a line of the timing log in
   * rigid mode) when `SavesAfter` holds, and the stop test. The files written
   * are returned; `end_time` and `end_frame` are passed in.
   */
  method SimStep(sim: Simulation, log: TimingLog, outprefix: string, endTime: real, endFrame: real,
                 numFrames: int, env: Env) returns (r: Outcome, ws: seq<Write>)
    requires sim.Valid() && log.Valid() && StepDefined(sim.Current(), sim.Setup(), env)
    modifies sim, sim.obstacles, log, log.oldTotals
    ensures sim.Valid() && log.Valid() && sim.Setup() == old(sim.Setup())
    ensures (sim.Current(), r != Failed) == StepSpec(old(sim.Current()), old(sim.Setup()), env)
    ensures var saves := r != Failed && SavesAfter(sim.ClockState(), sim.Setup().cadence, sim.nonRigid);
      && ws == (if saves then SaveWrites(outprefix, sim, sim.frame) else [])
      && log.lines == old(log.lines) + (if saves && !sim.nonRigid && log.isOpen
                                        then [Deltas(old(log.oldTotals[..]), sim.timers)] else [])
    ensures r != Failed ==> (r == Finished <==> Finishes(sim.ClockState(), endTime, endFrame, numFrames))
  {
    var ok := sim.AdvanceStep(env);
    if !ok {
      return Failed, [];
    }
    ghost var w1, st1 := sim.Current(), sim.Setup();
    assert sim.Valid();
    r, ws := SaveAndTest(sim, log, outprefix, endTime, endFrame, numFrames);
    assert sim.Current() == w1 && sim.Setup() == st1;
  }

  /** The part of `sim_step` after `advance_step` has succeeded (lines 136-154). */
  method SaveAndTest(sim: Simulation, log: TimingLog, outprefix: string, endTime: real, endFrame: real,
                     numFrames: int) returns (r: Outcome, ws: seq<Write>)
    requires sim.Valid() && log.Valid()
    modifies log, log.oldTotals
    ensures log.Valid() && r != Failed
    ensures var saves := SavesAfter(sim.ClockState(), sim.Setup().cadence, sim.nonRigid);
      && ws == (if saves then SaveWrites(outprefix, sim, sim.frame) else [])
      && log.lines == old(log.lines) + (if saves && !sim.nonRigid && log.isOpen
                                        then [Deltas(old(log.oldTotals[..]), sim.timers)] else [])
    ensures r == Finished <==> Finishes(sim.ClockState(), endTime, endFrame, numFrames)
  {
    ws := [];
    var fs := sim.frameSteps;
    if sim.nonRigid {
      if sim.initFrameSteps != 0 {
        fs := sim.initFrameSteps;
      }
      if sim.initWaitFrames <= 1 && sim.step > 0 && CDivides(sim.step, fs) {
        ws := Save(outprefix, sim, sim.frame);
      }
    } else if CDivides(sim.step, fs) {
      ws := Save(outprefix, sim, sim.frame);
      log.SaveTimings(sim.timers);
    }
    if sim.time >= endTime || sim.frame as real >= endFrame {
      return Finished, ws;
    }
    if sim.frame == numFrames {
      return Finished, ws;
    }
    return Continue, ws;
  }

  /**
   * The setup of `init_physics` that concerns the output directory (lines
   * 58-75): in rigid mode with an output directory the timing log is opened
   * and the scene file is copied to `<out-dir>/conf.json`; then `run_physics`
   * saves the loaded state as frame 0 in that case (lines 186-187).
   */
  method StartOutput(sim: Simulation, fs: Files, sceneFile: string, outprefix: string)
    returns (log: TimingLog, fs': Files, ws: seq<Write>)
    ensures fresh(log) && log.Valid() && log.lines == []
    ensures log.isOpen <==> !sim.nonRigid && outprefix != []
    ensures fs' == if log.isOpen then CopyFile(fs, sceneFile, outprefix + "/conf.json").0 else fs
    ensures ws == if log.isOpen then SaveWrites(outprefix, sim, 0) else []
  {
    var rigidOutput := !sim.nonRigid && outprefix != [];
    log := new TimingLog(rigidOutput);
    fs', ws := fs, [];
    if rigidOutput {
      fs' := CopyFile(fs, sceneFile, outprefix + "/conf.json").0;
      ws := Save(outprefix, sim, 0);
    }
  }

  /** One obstacle's query in `init_resume` (lines 202-208): by frame in non-rigid mode, by time otherwise. */
  function ResumeQuery(s: ObstacleState, cfg: ObstacleConfig, nonRigid: bool, time: real, frame: int,
                       files: map<string, Mesh>): (r: (ObstacleState, bool))
    requires Inv(s)
    ensures Inv(r.0)
    ensures !nonRigid ==> r == (GetMeshAtSpec(s, cfg, time), true)
  {
    if nonRigid then GetMeshFrameSpec(s, cfg, time, frame, files) else (GetMeshAtSpec(s, cfg, time), true)
  }

  /**
   * The queries of the first `n` obstacles in order; a missing keyframe file
   * ends the process, so the obstacles after it are left as they were.
   */
  function ResumeQueries(ss: seq<ObstacleState>, cfgs: seq<ObstacleConfig>, nonRigid: bool, time: real,
                         frame: int, files: map<string, Mesh>, n: nat): (r: (seq<ObstacleState>, bool))
    requires n <= |ss| == |cfgs| && forall o :: 0 <= o < |ss| ==> Inv(ss[o])
    ensures |r.0| == |ss| && forall o :: 0 <= o < |ss| ==> Inv(r.0[o])
    ensures forall o :: n <= o < |ss| ==> r.0[o] == ss[o]
  {
    if n == 0 then (ss, true)
    else
      var (ps, ok) := ResumeQueries(ss, cfgs, nonRigid, time, frame, files, n - 1);
      if !ok then (ps, false)
      else
        var (s', ok') := ResumeQuery(ps[n - 1], cfgs[n - 1], nonRigid, time, frame, files);
        (ps[n - 1 := s'], ok')
  }

  /** In rigid mode every obstacle is queried at the resume time and nothing fails. */
  lemma {:induction false} RigidResumeQueries(ss: seq<ObstacleState>, cfgs: seq<ObstacleConfig>, time: real,
                                              frame: int, files: map<string, Mesh>, n: nat)
    requires n <= |ss| == |cfgs| && forall o :: 0 <= o < |ss| ==> Inv(ss[o])
    ensures ResumeQueries(ss, cfgs, false, time, frame, files, n).1
    ensures forall o :: 0 <= o < n ==>
      ResumeQueries(ss, cfgs, false, time, frame, files, n).0[o] == GetMeshAtSpec(ss[o], cfgs[o], time)
  {
    if n > 0 {
      RigidResumeQueries(ss, cfgs, time, frame, files, n - 1);
    }
  }

  /** Once a query has failed, the later obstacles are never visited. */
  lemma {:induction false} ResumeQueriesStop(ss: seq<ObstacleState>, cfgs: seq<ObstacleConfig>, nonRigid: bool,
                                             time: real, frame: int, files: map<string, Mesh>, n: nat, m: nat)
    requires n <= m <= |ss| == |cfgs| && forall o :: 0 <= o < |ss| ==> Inv(ss[o])
    requires !ResumeQueries(ss, cfgs, nonRigid, time, frame, files, n).1
    ensures ResumeQueries(ss, cfgs, nonRigid, time, frame, files, m) == ResumeQueries(ss, cfgs, nonRigid, time, frame, files, n)
    decreases m
  {
    if m > n {
      ResumeQueriesStop(ss, cfgs, nonRigid, time, frame, files, n, m - 1);
    }
  }

  /** The query of the `o`-th of distinct obstacles: the others keep their state. */
  method QueryAt(obs: seq<Obstacle>, o: nat, nonRigid: bool, time: real, frame: int, files: map<string, Mesh>)
    returns (ok: bool)
    requires Distinct(obs) && o < |obs| && obs[o].Valid()
    modifies obs[o]
    ensures StatesOf(obs) == old(StatesOf(obs))[o := obs[o].State()]
    ensures (obs[o].State(), ok) == ResumeQuery(old(obs[o].State()), obs[o].Config(), nonRigid, time, frame, files)
  {
    ok := true;
    if nonRigid {
      var _, found := obs[o].GetMeshFrame(time, frame, files);
      ok := found;
    } else {
      var _ := obs[o].GetMeshAt(time);
    }
  }

  /** The obstacle loop of `init_resume` (lines 202-208). */
  method ResumeObstacles(obs: seq<Obstacle>, nonRigid: bool, time: real, frame: int, files: map<string, Mesh>)
    returns (ok: bool)
    requires Distinct(obs) && forall o :: 0 <= o < |StatesOf(obs)| ==> Inv(StatesOf(obs)[o])
    modifies obs
    ensures (StatesOf(obs), ok)
      == ResumeQueries(old(StatesOf(obs)), ConfigsOf(obs), nonRigid, time, frame, files, |obs|)
  {
    ghost var start, cfgs := StatesOf(obs), ConfigsOf(obs);
    ok := true;
    var o := 0;
    while o < |obs| && ok
      invariant 0 <= o <= |obs|
      invariant (StatesOf(obs), ok) == ResumeQueries(start, cfgs, nonRigid, time, frame, files, o)
    {
      assert obs[o].State() == start[o] && obs[o].Config() == cfgs[o];
      ok := QueryAt(obs, o, nonRigid, time, frame, files);
      o := o + 1;
    }
    if !ok {
      ResumeQueriesStop(start, cfgs, nonRigid, time, frame, files, o, |obs|);
    }
  }

  /** The counter arithmetic of `init_resume` (lines 199-201). */
  method FastForwardTo(sim: Simulation, frame: int)
    requires sim.Valid()
    modifies sim
    ensures sim.Valid() && sim.Setup() == old(sim.Setup())
    ensures sim.Current() == old(sim.Current()).(clock := FastForward(old(sim.ClockState()), sim.Setup().cadence, frame))
  {
    sim.frame, sim.time, sim.step := frame, frame as real * sim.frameTime, frame * sim.frameSteps;
  }

  /**
   * `init_resume(args)` (lines 192-212) after the scene is loaded: the
   * counters jump to frame `N = atoi(args[1])`, every obstacle is queried at
   * the new time (and frame), and the cloth is to be read back from the files
   * `load` names. False when a keyframe file is missing.
   */
  method InitResume(sim: Simulation, args: seq<string>, files: map<string, Mesh>) returns (ok: bool, load: string)
    requires sim.Valid() && |args| == 2
    modifies sim, sim.obstacles
    ensures sim.Valid() && sim.Setup() == old(sim.Setup())
    ensures sim.ClockState() == FastForward(old(sim.ClockState()), sim.Setup().cadence, Atoi(args[1]))
    ensures (StatesOf(sim.obstacles), ok) == ResumeQueries(old(StatesOf(sim.obstacles)), ConfigsOf(sim.obstacles),
                                                           sim.nonRigid, sim.time, sim.frame, files, |sim.obstacles|)
    ensures sim.cloths == old(sim.cloths) && sim.timers == old(sim.timers)
    ensures load == ResumePrefix(args[0], sim.frame)
  {
    FastForwardTo(sim, Atoi(args[1]));
    ghost var w := sim.Current();
    ok := ResumeObstacles(sim.obstacles, sim.nonRigid, sim.time, sim.frame, files);
    assert sim.Current() == w.(obs := StatesOf(sim.obstacles));
    load := ResumePrefix(args[0], sim.frame);
  }

  /**
   * `resume_physics(args)` up to its loop (lines 214-223): exactly two
   * arguments, the output directory and the frame to resume from.
   */
  method ResumePhysics(sim: Simulation, args: seq<string>, files: map<string, Mesh>) returns (ok: bool, load: string)
    requires sim.Valid()
    modifies sim, sim.obstacles
    ensures sim.Valid() && sim.Setup() == old(sim.Setup())
    ensures |args| != 2 ==> !ok && sim.Current() == old(sim.Current())
    ensures |args| == 2 ==>
      && sim.ClockState() == FastForward(old(sim.ClockState()), sim.Setup().cadence, Atoi(args[1]))
      && (StatesOf(sim.obstacles), ok) == ResumeQueries(old(StatesOf(sim.obstacles)), ConfigsOf(sim.obstacles),
                                                        sim.nonRigid, sim.time, sim.frame, files, |sim.obstacles|)
      && sim.cloths == old(sim.cloths) && sim.timers == old(sim.timers)
      && load == ResumePrefix(args[0], sim.frame)
  {
    if |args| != 2 {
      return false, "";
    }
    ok, load := InitResume(sim, args, files);
  }
}
