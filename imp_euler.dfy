/** The implicit Euler integrator for DAEs F(x', x, t) = 0: one step solves
    F((x - x_n)/h, x, t_n + h) = 0 for x; the integrate loop chooses the step
    sizes, snapping them to the end time, to an outer time grid and to
    custom checkpoints, and halves (by 2.02) a step whose nonlinear solve
    fails. */
module ImpEuler {
  import opened Wrappers
  import opened RealFacts

  // ---------------------------------------------------------------------
  // One step

  /** The use_scipy argument: None, a flag or a solver name. */
  datatype UseScipy = Unset | Flag(on: bool) | Named(name: string)

  datatype StepSolver = SparseNewton | LeastSquares | ScipyRoot

  /** The nonlinear solver a step uses: None or False pick the sparse Newton
      solver, True or 'least_squares' the least-squares solver, 'root' the
      root finder, and any other name raises. */
  function ChooseSolver(u: UseScipy): (r: Result<StepSolver, string>)
    ensures r == Ok(SparseNewton) <==> u == Unset || u == Flag(false)
    ensures r == Ok(LeastSquares) <==> u == Flag(true) || u == Named("least_squares")
    ensures r == Ok(ScipyRoot) <==> u == Named("root")
    ensures r.Err? <==> u.Named? && u.name != "least_squares" && u.name != "root"
  {
    match u
    case Unset => Ok(SparseNewton)
    case Flag(on) => if on then Ok(LeastSquares) else Ok(SparseNewton)
    case Named(n) =>
      if n == "least_squares" then Ok(LeastSquares)
      else if n == "root" then Ok(ScipyRoot)
      else Err("?")
  }

  /** The difference quotient (x - x_n)/h that stands for x' in a step. */
  function Quotient(x: seq<real>, xn: seq<real>, h: real): (q: seq<real>)
    requires |x| == |xn| && h != 0.0
    ensures |q| == |x|
    ensures forall i :: 0 <= i < |x| ==> xn[i] + h * q[i] == x[i]
  {
    seq(|x|, i requires 0 <= i < |x| => (x[i] - xn[i]) / h)
  }

  /** The result of one step: the new time, the solver's iterate and
      success flag, and the residual function that was solved. */
  datatype StepResult = StepResult(tNext: real, x: seq<real>, success: bool,
                                   residual: seq<real> --> seq<real>)

  /** inner_step_func: the residual x -> F((x - x_n)/h, x, t_n + h) a step
      solves for. */
  function Residual(sys: (seq<real>, seq<real>, real) -> seq<real>, xn: seq<real>, tn: real, h: real)
    : (f: seq<real> --> seq<real>)
    requires h != 0.0
    ensures forall x :: |x| == |xn| ==> f.requires(x) && f(x) == sys(Quotient(x, xn, h), x, tn + h)
  {
    (x: seq<real>) requires |x| == |xn| => sys(Quotient(x, xn, h), x, tn + h)
  }

  /** ImpEulerStep. sys stands for the DAE function F(x', x, t); solveWith(s, F, x0)
      for the chosen nonlinear solver s run on F from x0: its final iterate
      and success flag, or the error it raises (NLinSolveError for the
      sparse Newton solver). */
  function ImpEulerStep(sys: (seq<real>, seq<real>, real) -> seq<real>,
                        solveWith: (StepSolver, seq<real> --> seq<real>, seq<real>) -> Result<(seq<real>, bool), string>,
                        xn: seq<real>, tn: real, h: real, useScipy: UseScipy): (r: Result<StepResult, string>)
    requires h != 0.0
    ensures ChooseSolver(useScipy).Err? ==> r == Err(ChooseSolver(useScipy).error)
    ensures ChooseSolver(useScipy).Ok? ==>
              var solved := solveWith(ChooseSolver(useScipy).value, Residual(sys, xn, tn, h), xn);
              (solved.Err? ==> r == Err(solved.error))
              && (solved.Ok? ==> r == Ok(StepResult(tn + h, solved.value.0, solved.value.1, Residual(sys, xn, tn, h))))
    ensures r.Ok? ==> forall x :: |x| == |xn| ==>
              r.value.residual.requires(x) && r.value.residual(x) == sys(Quotient(x, xn, h), x, tn + h)
  {
    var residual := Residual(sys, xn, tn, h);
    match ChooseSolver(useScipy)
    case Err(e) => Err(e)
    case Ok(s) =>
      match solveWith(s, residual, xn)
      case Err(e) => Err(e)
      case Ok(res) => Ok(StepResult(tn + h, res.0, res.1, residual))
  }

  // ---------------------------------------------------------------------
  // Options and parsed step sizes

  /** The keys of ImpEuler_integration_options that the integrator reads. */
  datatype EulerOptions = EulerOptions(
    hMin: real, hMax: Option<real>, hGrid: Option<real>, gridOffset: real,
    customTimePoints: seq<real>,
    atolDom: real, rtolDom: real, atolRange: real, rtolRange: real,
    oneStep: bool, cycADa: bool)

  /** The defaults of integration_options plus cycADa off. */
  function DefaultEulerOptions(): (o: EulerOptions)
    ensures o.hMin == 0.0 && o.hMax.None? && o.hGrid.None? && o.gridOffset == 0.0
    ensures o.customTimePoints == [] && !o.oneStep && !o.cycADa
    ensures o.atolDom == o.atolRange == 1.0e-8 && o.rtolDom == o.rtolRange == 1.0e-6
  {
    EulerOptions(0.0, None, None, 0.0, [], 1.0e-8, 1.0e-6, 1.0e-8, 1.0e-6, false, false)
  }

  /** Python's `a or b` for an optional float: None and 0.0 both fall through to b. */
  function OrElse(a: Option<real>, b: real): (r: real)
    ensures a.Some? && a.value != 0.0 ==> r == a.value
    ensures a.None? || a.value == 0.0 ==> r == b
  {
    if a.Some? && a.value != 0.0 then a.value else b
  }

  /** The parsed step sizes of a run from t0 to T. */
  datatype Grid = Grid(t0: real, tEnd: real, thresh: real, hGrid: real, gridStart: real,
                       hMax: real, hMin: real)

  /** Lines 93-97 of integrate: each size is its option clamped into the
      sizes before it, and never below the threshold min(1e-14, T - t0). */
  function ParseGrid(t0: real, tEnd: real, o: EulerOptions): (g: Grid)
    ensures g.t0 == t0 && g.tEnd == tEnd && g.gridStart == t0 + o.gridOffset
    ensures g.thresh == Min(1.0e-14, tEnd - t0)
    ensures g.thresh <= g.hMin <= g.hMax <= g.hGrid <= tEnd - t0
    ensures t0 < tEnd ==> g.hMin > 0.0
    ensures g.thresh <= OrElse(o.hGrid, tEnd - t0) <= tEnd - t0 ==> g.hGrid == OrElse(o.hGrid, tEnd - t0)
    ensures g.thresh <= OrElse(o.hMax, tEnd - t0) <= g.hGrid ==> g.hMax == OrElse(o.hMax, tEnd - t0)
    ensures g.thresh <= o.hMin <= g.hMax ==> g.hMin == o.hMin
  {
    var span := tEnd - t0;
    var thresh := Min(1.0e-14, span);
    var hGrid := Max(Min(span, OrElse(o.hGrid, span)), thresh);
    var hMax := Max(Min(Min(span, OrElse(o.hMax, span)), hGrid), thresh);
    var hMin := Max(Min(hMax, o.hMin), thresh);
    Grid(t0, tEnd, thresh, hGrid, t0 + o.gridOffset, hMax, hMin)
  }

  /** The first step size: h when given, else a hundredth of the interval;
      clamped into [h_min, h_max] unless the run is a single step. */
  function StartStep(g: Grid, o: EulerOptions, h: Option<real>): (r: real)
    requires g.hMin <= g.hMax
    ensures var asked := if h.Some? then h.value else (g.tEnd - g.t0) / 100.0;
      (o.oneStep ==> r == asked)
      && (!o.oneStep ==> g.hMin <= r <= g.hMax
                         && (g.hMin <= asked <= g.hMax ==> r == asked))
  {
    var asked := if h.Some? then h.value else (g.tEnd - g.t0) / 100.0;
    if o.oneStep then asked else Max(Min(g.hMax, asked), g.hMin)
  }

  /** The custom checkpoints strictly inside (t0, T), in their given order. */
  function Inside(t0: real, tEnd: real, pts: seq<real>): (r: seq<real>)
    ensures |r| <= |pts|
    ensures forall x :: x in r <==> x in pts && t0 < x < tEnd
  {
    if |pts| == 0 then []
    else
      var rest := Inside(t0, tEnd, pts[1..]);
      assert pts == [pts[0]] + pts[1..];
      if t0 < pts[0] < tEnd then [pts[0]] + rest else rest
  }

  /** The checkpoint queue: the custom points inside (t0, T) followed by the
      sentinel T + 2 h_max. */
  function CustomPoints(g: Grid, pts: seq<real>): (r: seq<real>)
    ensures |r| >= 1 && r[|r| - 1] == g.tEnd + 2.0 * g.hMax
    ensures r[..|r| - 1] == Inside(g.t0, g.tEnd, pts)
    ensures forall i :: 0 <= i < |r| - 1 ==> g.t0 < r[i] < g.tEnd
  {
    var inside := Inside(g.t0, g.tEnd, pts);
    assert forall i :: 0 <= i < |inside| ==> inside[i] in inside;
    inside + [g.tEnd + 2.0 * g.hMax]
  }

  // ---------------------------------------------------------------------
  // The step-size state

  /** The variables the integrate loop carries besides the trace: the step
      h, the remembered step h_mem, the next target time tt with its grid
      counter c_tt, the current checkpoint and the ones still queued, the
      number of solves since the last failure and h_factor_ratio. */
  datatype Stepper = Stepper(h: real, hMem: real, tt: real, cTt: nat,
                             customPt: real, pending: seq<real>,
                             sinceFail: nat, ratio: real)

  /** The c-th point of the outer grid. */
  function GridPoint(g: Grid, c: nat): real
  {
    g.gridStart + c as real * g.hGrid
  }

  /** The state before the first step, as written (lines 121-129): when the
      first checkpoint comes before the first grid point it becomes the
      target, but stays the current checkpoint. */
  function InitialStepperAsWritten(g: Grid, hStart: real, pts: seq<real>): (s: Stepper)
    requires |pts| >= 1
    ensures s.h == s.hMem == hStart && s.cTt == 1 && s.sinceFail == 0 && s.ratio == 1.0
    ensures s.customPt == pts[0] && s.pending == pts[1..]
    ensures s.tt == (if GridPoint(g, 1) > pts[0] - g.hMin then pts[0] else GridPoint(g, 1))
  {
    var tt := GridPoint(g, 1);
    Stepper(hStart, hStart, if tt > pts[0] - g.hMin then pts[0] else tt, 1, pts[0], pts[1..], 0, 1.0)
  }

  /** The state before the first step, with a checkpoint that becomes the
      first target taken off the queue, as the loop does for every later
      one. */
  function InitialStepper(g: Grid, hStart: real, pts: seq<real>): (s: Stepper)
    requires |pts| >= 1
    ensures s.h == s.hMem == hStart && s.cTt == 1 && s.sinceFail == 0 && s.ratio == 1.0
    ensures GridPoint(g, 1) > pts[0] - g.hMin && |pts| >= 2 ==>
              s.tt == pts[0] && s.customPt == pts[1] && s.pending == pts[2..]
    ensures GridPoint(g, 1) > pts[0] - g.hMin && |pts| == 1 ==>
              s.tt == pts[0] && s.customPt == pts[0] && s.pending == []
    ensures GridPoint(g, 1) <= pts[0] - g.hMin ==>
              s.tt == GridPoint(g, 1) && s.customPt == pts[0] && s.pending == pts[1..]
  {
    var tt := GridPoint(g, 1);
    if tt > pts[0] - g.hMin then
      if |pts| >= 2 then Stepper(hStart, hStart, pts[0], 1, pts[1], pts[2..], 0, 1.0)
      else Stepper(hStart, hStart, pts[0], 1, pts[0], [], 0, 1.0)
    else Stepper(hStart, hStart, tt, 1, pts[0], pts[1..], 0, 1.0)
  }

  /** Lines 137-147: after more than min(20, h_factor_ratio) solves without
      a failure, h moves toward h_mem by at most a factor 2.02 down or 3.1
      up, never past h_mem, h_min or h_max; when h already sits at h_mem
      the ratio resets to 1. */
  function Relax(g: Grid, s: Stepper): (r: Stepper)
    requires 0.0 < g.hMin <= g.hMax && g.hMin <= s.h
    ensures r == s.(h := r.h, ratio := r.ratio)
    ensures s.h >= s.hMem ==> s.hMem <= r.h <= s.h || r.h == s.h
    ensures s.h >= s.hMem ==> s.h / 2.02 <= r.h
    ensures s.h <= s.hMem ==> s.h <= r.h <= s.hMem || r.h == s.h
    ensures s.h <= s.hMem ==> r.h <= s.h * 3.1
    ensures r.h >= g.hMin && (s.h <= g.hMax ==> r.h <= g.hMax)
    ensures s.sinceFail as real <= Min(20.0, s.ratio) ==> r == s
  {
    if s.sinceFail as real > Min(20.0, s.ratio) then
      if Abs(s.h - s.hMem) > g.thresh then
        if s.h > s.hMem && s.h > g.hMin then
          s.(h := Max(Max(g.hMin, s.hMem), s.h / 2.02), ratio := s.ratio * 2.02)
        else if s.h < s.hMem && s.h < g.hMax then
          s.(h := Min(Min(g.hMax, s.hMem), s.h * 3.1), ratio := s.ratio / 3.1)
        else s
      else s.(ratio := 1.0)
    else s
  }

  function Abs(x: real): real { if x < 0.0 then -x else x }

  /** The next grid target after a snap: the next grid point, or the current
      checkpoint when that comes first (within h_min). */
  predicate CheckpointFirst(g: Grid, s: Stepper)
  {
    GridPoint(g, s.cTt + 1) > s.customPt - g.hMin
  }

  /** Lines 150-160 as written: the checkpoint queue is advanced with next(),
      which raises StopIteration once the sentinel has been taken. */
  function SnapAsWritten(g: Grid, s: Stepper, t: real): (r: Result<Stepper, string>)
    ensures r.Err? <==> t + s.h < g.tEnd - g.hMin && t + s.hMem < g.tEnd - g.hMin
                        && t + s.h >= s.tt - g.hMin && CheckpointFirst(g, s) && s.pending == []
  {
    if t + s.h >= g.tEnd - g.hMin then
      var h := Max(g.tEnd - t, g.hMin);
      Ok(s.(h := h, hMem := Min(s.hMem, h)))
    else if t + s.hMem >= g.tEnd - g.hMin then
      Ok(s.(hMem := Max(g.tEnd - t, g.hMin)))
    else if t + s.h >= s.tt - g.hMin then
      var h := Max(s.tt - t, g.hMin);
      var c := s.cTt + 1;
      if GridPoint(g, c) > s.customPt - g.hMin then
        if s.pending == [] then Err("StopIteration")
        else Ok(s.(h := h, cTt := c, tt := s.customPt, customPt := s.pending[0], pending := s.pending[1..]))
      else Ok(s.(h := h, cTt := c, tt := GridPoint(g, c)))
    else Ok(s)
  }

  /** Lines 150-160 with the sentinel T + 2 h_max kept as the checkpoint once
      the queue is empty. A step that would come within h_min of T is set to
      land on T (or to h_min when T is closer than that); otherwise, if h_mem
      would, h_mem is cut back; otherwise a step that would come within h_min
      of the target tt is set to land on it (or to h_min), and the target
      moves on to the next grid point or the checkpoint before it. */
  function Snap(g: Grid, s: Stepper, t: real): (r: Stepper)
    requires 0.0 < g.hMin && g.hMin <= s.h && g.hMin <= s.hMem
    ensures r.h >= g.hMin && r.hMem >= g.hMin
    ensures t + s.h >= g.tEnd - g.hMin ==>
              r == s.(h := r.h, hMem := r.hMem) && r.hMem <= s.hMem && r.hMem <= r.h
              && (g.tEnd - t >= g.hMin ==> t + r.h == g.tEnd)
              && (g.tEnd - t < g.hMin ==> r.h == g.hMin)
    ensures t + s.h < g.tEnd - g.hMin && t + s.hMem >= g.tEnd - g.hMin ==>
              r == s.(hMem := r.hMem) && r.hMem == Max(g.tEnd - t, g.hMin)
    ensures t + s.h < g.tEnd - g.hMin && t + s.hMem < g.tEnd - g.hMin && t + s.h >= s.tt - g.hMin ==>
              (s.tt - t >= g.hMin ==> t + r.h == s.tt) && (s.tt - t < g.hMin ==> r.h == g.hMin)
              && r.hMem == s.hMem && r.cTt == s.cTt + 1 && r.sinceFail == s.sinceFail && r.ratio == s.ratio
              && (CheckpointFirst(g, s) ==> r.tt == s.customPt)
              && (!CheckpointFirst(g, s) ==> r.tt == GridPoint(g, r.cTt))
    ensures t + s.h < g.tEnd - g.hMin && t + s.hMem < g.tEnd - g.hMin && t + s.h < s.tt - g.hMin ==> r == s
    ensures [r.customPt] + r.pending == [s.customPt] + s.pending
            || (s.pending != [] && [r.customPt] + r.pending == s.pending)
  {
    if t + s.h >= g.tEnd - g.hMin then
      var h := Max(g.tEnd - t, g.hMin);
      s.(h := h, hMem := Min(s.hMem, h))
    else if t + s.hMem >= g.tEnd - g.hMin then
      s.(hMem := Max(g.tEnd - t, g.hMin))
    else if t + s.h >= s.tt - g.hMin then
      var h := Max(s.tt - t, g.hMin);
      var c := s.cTt + 1;
      if GridPoint(g, c) > s.customPt - g.hMin then
        if s.pending == [] then s.(h := h, cTt := c, tt := s.customPt)
        else s.(h := h, cTt := c, tt := s.customPt, customPt := s.pending[0], pending := s.pending[1..])
      else s.(h := h, cTt := c, tt := GridPoint(g, c))
    else s
  }

  /** The correction changes nothing where the code as written does not raise. */
  lemma SnapCorrects(g: Grid, s: Stepper, t: real)
    requires 0.0 < g.hMin && g.hMin <= s.h && g.hMin <= s.hMem
    requires SnapAsWritten(g, s, t).Ok?
    ensures Snap(g, s, t) == SnapAsWritten(g, s, t).value
  {
  }

  /** The adjustment before a step (lines 136-160), as written and corrected. */
  function RetargetAsWritten(g: Grid, s: Stepper, t: real): Result<Stepper, string>
    requires 0.0 < g.hMin <= g.hMax && g.hMin <= s.h
  {
    SnapAsWritten(g, Relax(g, s), t)
  }

  function Retarget(g: Grid, s: Stepper, t: real): (r: Stepper)
    requires 0.0 < g.hMin <= g.hMax && g.hMin <= s.h && g.hMin <= s.hMem
    ensures r.h >= g.hMin && r.hMem >= g.hMin
  {
    Snap(g, Relax(g, s), t)
  }

  /** Lines 179-187: a failed solve at h > h_min retries with h / 2.02, but
      not below h_min, and restarts the count of solves since a failure. */
  function Fail(g: Grid, s: Stepper): (r: Stepper)
    requires 0.0 < g.hMin < s.h
    ensures g.hMin <= r.h < s.h && r.sinceFail == 0
    ensures r == s.(h := Max(g.hMin, s.h / 2.02), sinceFail := 0, ratio := s.ratio * 2.02)
  {
    s.(h := Max(g.hMin, s.h / 2.02), sinceFail := 0, ratio := s.ratio * 2.02)
  }

  // ---------------------------------------------------------------------
  // Three runs on which the code as written goes wrong

  /** t0 = 0, T = 10, default options with checkpoints 5 and 7 (so h = 0.1,
      h_min = 1e-14, grid width 10, queue [5, 7, 30]). As written, the first
      target is 5 but 5 stays the current checkpoint; 49 steps of 0.1 leave
      the state unchanged but for the counters, the snap at 4.9 lands on 5
      and retargets 5 once more, so the step from 5 is h_min. With the first
      checkpoint taken off the queue the step from 5 stays 0.1, aimed at 7. */
  lemma FirstCheckpointTargetedTwice()
    ensures var o := DefaultEulerOptions().(customTimePoints := [5.0, 7.0]);
      var g := ParseGrid(0.0, 10.0, o);
      var pts := CustomPoints(g, o.customTimePoints);
      var s0 := InitialStepperAsWritten(g, StartStep(g, o, None), pts);
      var s1 := RetargetAsWritten(g, s0.(sinceFail := 49), 4.9);
      s1.Ok? && s1.value.h == 0.1 && s1.value.tt == 5.0
      && RetargetAsWritten(g, s1.value.(sinceFail := 50), 5.0) == Ok(s1.value.(sinceFail := 50, h := g.hMin, cTt := 3, tt := 7.0, customPt := 30.0, pending := []))
      && g.hMin == 1.0e-14
    ensures var o := DefaultEulerOptions().(customTimePoints := [5.0, 7.0]);
      var g := ParseGrid(0.0, 10.0, o);
      var pts := CustomPoints(g, o.customTimePoints);
      var s0 := InitialStepper(g, StartStep(g, o, None), pts);
      var s1 := Retarget(g, s0.(sinceFail := 49), 4.9);
      s1.h == 0.1 && s1.tt == 7.0 && Retarget(g, s1.(sinceFail := 50), 5.0).h == 0.1
  {
    var o := DefaultEulerOptions().(customTimePoints := [5.0, 7.0]);
    var g := ParseGrid(0.0, 10.0, o);
    assert g.hMin == 1.0e-14 && g.hGrid == 10.0 && g.hMax == 10.0 && g.gridStart == 0.0;
    assert StartStep(g, o, None) == 0.1;
    assert Inside(0.0, 10.0, [5.0, 7.0]) == [5.0, 7.0] by {
      assert [5.0, 7.0][1..] == [7.0];
      assert Inside(0.0, 10.0, [7.0]) == [7.0] by {
        assert [7.0][1..] == [];
      }
    }
    var pts := CustomPoints(g, o.customTimePoints);
    assert pts == [5.0, 7.0, 30.0];
    var s0 := InitialStepperAsWritten(g, 0.1, pts);
    assert s0 == Stepper(0.1, 0.1, 5.0, 1, 5.0, [7.0, 30.0], 0, 1.0);
    var s1 := Stepper(0.1, 0.1, 5.0, 2, 7.0, [30.0], 49, 1.0);
    assert RetargetAsWritten(g, s0.(sinceFail := 49), 4.9) == Ok(s1);
    var s2 := s1.(sinceFail := 50);
    assert Relax(g, s2) == s2;
    assert GridPoint(g, 3) == 30.0;
    assert 5.0 + s2.h < g.tEnd - g.hMin && 5.0 + s2.hMem < g.tEnd - g.hMin && 5.0 + s2.h >= s2.tt - g.hMin;
    assert Max(s2.tt - 5.0, g.hMin) == g.hMin;
    assert s2.pending[1..] == [];
    assert SnapAsWritten(g, s2, 5.0) == Ok(Stepper(g.hMin, 0.1, 7.0, 3, 30.0, [], 50, 1.0));
  }

  /** t0 = 0, T = 25, h_grid = 10, h_max = 1 (so h = 0.25 and the queue is
      only the sentinel 27). The snap at 9.75 aims at the grid point 20;
      the snap at 19.75 finds the next grid point 30 beyond the sentinel
      and takes the sentinel as target, and next() on the empty queue
      raises StopIteration. Keeping the sentinel aims the step at 27 instead. */
  lemma SentinelExhausted()
    ensures var o := DefaultEulerOptions().(hGrid := Some(10.0), hMax := Some(1.0));
      var g := ParseGrid(0.0, 25.0, o);
      var s0 := InitialStepperAsWritten(g, StartStep(g, o, None), CustomPoints(g, o.customTimePoints));
      var s1 := RetargetAsWritten(g, s0.(sinceFail := 39), 9.75);
      s1.Ok? && s1.value.tt == 20.0 && s1.value.h == 0.25
      && RetargetAsWritten(g, s1.value.(sinceFail := 79), 19.75).Err?
      && Retarget(g, s1.value.(sinceFail := 79), 19.75).tt == 27.0
  {
    var o := DefaultEulerOptions().(hGrid := Some(10.0), hMax := Some(1.0));
    var g := ParseGrid(0.0, 25.0, o);
    assert g.hMin == 1.0e-14 && g.hGrid == 10.0 && g.hMax == 1.0 && g.gridStart == 0.0;
    assert StartStep(g, o, None) == 0.25;
    assert CustomPoints(g, o.customTimePoints) == [27.0];
  }

  /** The stuck state of the next lemma: at t = 1 right after a failure,
      with the reduced step 1. */
  function Stuck(ratio: real): Stepper
  {
    Stepper(1.0, 1.0, 3.0, 1, 9.0, [], 0, ratio)
  }

  /** t0 = 0, T = 3, h_min = 1 (so h = 1, h_max = 3, queue [9]). The first
      step goes to t = 1; there the end snap sets h = 2. If the solve from
      t = 1 with h = 2 fails, h is reduced to 1, but the next iteration
      snaps it back to 2 and the state recurs: as written the loop attempts
      the same failing step forever. */
  lemma RetryResnapped(ratio: real)
    ensures var o := DefaultEulerOptions().(hMin := 1.0);
      var g := ParseGrid(0.0, 3.0, o);
      var s0 := InitialStepperAsWritten(g, StartStep(g, o, None), CustomPoints(g, o.customTimePoints));
      var s1 := RetargetAsWritten(g, s0, 0.0);
      s1.Ok? && s1.value.h == 1.0
      && var s2 := RetargetAsWritten(g, s1.value.(sinceFail := 1), 1.0);
      s2.Ok? && s2.value.h == 2.0 && Fail(g, s2.value) == Stuck(2.02)
    ensures var g := ParseGrid(0.0, 3.0, DefaultEulerOptions().(hMin := 1.0));
      ratio > 0.0 ==>
        RetargetAsWritten(g, Stuck(ratio), 1.0) == Ok(Stuck(ratio).(h := 2.0))
        && Fail(g, Stuck(ratio).(h := 2.0)) == Stuck(ratio * 2.02)
  {
    var o := DefaultEulerOptions().(hMin := 1.0);
    var g := ParseGrid(0.0, 3.0, o);
    assert g.hMin == 1.0 && g.hGrid == 3.0 && g.hMax == 3.0 && g.gridStart == 0.0;
    assert StartStep(g, o, None) == 1.0;
    assert CustomPoints(g, o.customTimePoints) == [9.0];
  }

  // ---------------------------------------------------------------------
  // The integrate loop

  /** One attempted step: from time t with step h, and whether the solve
      succeeded. */
  datatype Attempt = Attempt(t: real, h: real, ok: bool)

  /** The integration report: Ts, Hs, Xs and the message. */
  datatype IntegrationReport = IntegrationReport(ts: seq<real>, hs: seq<Option<real>>,
                                                 xs: seq<seq<real>>, msg: string)

  /** The solver's error re-raised for a failed step at h <= h_min. */
  datatype IntegrationError = SolverFailed(t: real, h: real)

  /** The accepted trace: Ts, Hs and Xs have equal length and start at
      [t0], [None], [x0]; each later entry is a successful step of size
      Hs[k] from the previous time and state. */
  ghost predicate Traced(attempt: (real, seq<real>, real) -> (seq<real>, bool), t0: real, x0: seq<real>,
                         ts: seq<real>, hs: seq<Option<real>>, xs: seq<seq<real>>)
  {
    |ts| == |hs| == |xs| >= 1 && ts[0] == t0 && hs[0] == None && xs[0] == x0
    && forall k :: 0 <= k < |ts| - 1 ==> Accepted(attempt, ts, hs, xs, k)
  }

  /** Entry k + 1 of the trace is a successful step from entry k. */
  ghost predicate Accepted(attempt: (real, seq<real>, real) -> (seq<real>, bool),
                           ts: seq<real>, hs: seq<Option<real>>, xs: seq<seq<real>>, k: int)
  {
    0 <= k && k + 1 < |ts| && k + 1 < |hs| && k + 1 < |xs|
    && hs[k + 1].Some? && ts[k + 1] == ts[k] + hs[k + 1].value
    && attempt(ts[k], xs[k], hs[k + 1].value) == (xs[k + 1], true)
  }

  /** A retry follows every failed attempt from the same time with the step
      divided by 2.02, but not below h_min. */
  ghost predicate RetriesShrink(g: Grid, attempts: seq<Attempt>)
  {
    forall j :: 0 <= j < |attempts| - 1 && !attempts[j].ok ==>
      attempts[j + 1].t == attempts[j].t && attempts[j + 1].h == Max(g.hMin, attempts[j].h / 2.02)
  }

  /** Appending an attempt keeps the halving rule when, after a failed last
      attempt, it retries at that time with the reduced step. */
  lemma ShrinkSnoc(g: Grid, attempts: seq<Attempt>, a: Attempt)
    requires RetriesShrink(g, attempts)
    requires |attempts| > 0 && !attempts[|attempts| - 1].ok ==>
      a.t == attempts[|attempts| - 1].t && a.h == Max(g.hMin, attempts[|attempts| - 1].h / 2.02)
    ensures RetriesShrink(g, attempts + [a])
  {
    var s := attempts + [a];
    forall j | 0 <= j < |s| - 1 && !s[j].ok
      ensures s[j + 1].t == s[j].t && s[j + 1].h == Max(g.hMin, s[j].h / 2.02)
    {
      if j < |attempts| - 1 {
        assert s[j] == attempts[j] && s[j + 1] == attempts[j + 1];
      }
    }
  }

  /** An accepted step extends the trace. */
  lemma TracedSnoc(attempt: (real, seq<real>, real) -> (seq<real>, bool), t0: real, x0: seq<real>,
                   ts: seq<real>, hs: seq<Option<real>>, xs: seq<seq<real>>, h: real, x: seq<real>)
    requires Traced(attempt, t0, x0, ts, hs, xs)
    requires attempt(ts[|ts| - 1], xs[|xs| - 1], h) == (x, true)
    ensures Traced(attempt, t0, x0, ts + [ts[|ts| - 1] + h], hs + [Some(h)], xs + [x])
  {
    var ts', hs', xs' := ts + [ts[|ts| - 1] + h], hs + [Some(h)], xs + [x];
    forall k | 0 <= k < |ts'| - 1
      ensures Accepted(attempt, ts', hs', xs', k)
    {
      if k < |ts| - 1 {
        assert Accepted(attempt, ts, hs, xs, k);
      }
    }
  }

  /** How many h_min the last accepted time is from T. */
  function Dist(g: Grid, t: real): int
    requires g.hMin > 0.0
  {
    ((g.tEnd - t) / g.hMin).Floor
  }

  /** How many failures the step h can still take before it reaches h_min. */
  function Tries(g: Grid, h: real): (r: int)
    requires g.hMin > 0.0
    ensures r >= 0
  {
    if h <= g.hMin then 0 else 1 + ((h - g.hMin) / (g.hMin / 2.0)).Floor
  }

  lemma DistNonneg(g: Grid, t: real)
    requires 0.0 < g.hMin && t <= g.tEnd
    ensures 0 <= Dist(g, t)
  {
    assert 0.0 <= (g.tEnd - t) / g.hMin;
  }

  lemma AcceptDrops(g: Grid, t: real, h: real)
    requires 0.0 < g.hMin <= h && t + h < g.tEnd - g.hMin
    ensures 0 <= Dist(g, t + h) < Dist(g, t)
  {
    FloorDrop(g.hMin, g.tEnd - t, g.tEnd - (t + h));
  }

  lemma FailDrops(g: Grid, s: Stepper)
    requires 0.0 < g.hMin < s.h
    ensures 0 <= Tries(g, Fail(g, s).h) < Tries(g, s.h)
  {
    var m := g.hMin / 2.0;
    assert 0.0 <= (s.h - g.hMin) / m;
    if s.h / 2.02 > g.hMin {
      FloorDrop(m, s.h - g.hMin, s.h / 2.02 - g.hMin);
    }
  }

  /** What the integrate loop keeps: the trace so far, the retry rule over
      the attempts so far, the step-size bounds, where the loop stands with
      respect to T, and what a pending retry is. */
  ghost predicate LoopInv(attempt: (real, seq<real>, real) -> (seq<real>, bool), g: Grid, o: EulerOptions,
                          t0: real, x0: seq<real>, ts: seq<real>, hs: seq<Option<real>>, xs: seq<seq<real>>,
                          st: Stepper, running: bool, retry: bool, attempts: seq<Attempt>)
  {
    g.hMin > 0.0 && g == ParseGrid(t0, g.tEnd, o)
    && Traced(attempt, t0, x0, ts, hs, xs)
    && RetriesShrink(g, attempts)
    && (!o.oneStep ==> g.hMin <= st.h && g.hMin <= st.hMem)
    && (!o.oneStep ==> forall k :: 1 <= k < |hs| ==> hs[k].Some? && hs[k].value >= g.hMin)
    && (!o.oneStep ==> forall j :: 0 <= j < |attempts| ==> attempts[j].h >= g.hMin)
    && (running && !o.oneStep ==> ts[|ts| - 1] <= g.tEnd - g.hMin)
    && (!running && !o.oneStep ==> ts[|ts| - 1] >= g.tEnd - g.hMin)
    && (o.oneStep ==> |attempts| <= 1 && (running <==> |attempts| == 0) && |ts| <= 1 + |attempts|)
    && (retry ==> |attempts| > 0 && !attempts[|attempts| - 1].ok && attempts[|attempts| - 1].t == ts[|ts| - 1]
                  && st.h == Max(g.hMin, attempts[|attempts| - 1].h / 2.02))
    && (running && |attempts| > 0 && !attempts[|attempts| - 1].ok ==> retry)
  }

  /** The stepper an iteration attempts with: a single step as given, a
      retry as it stands, any other step retargeted. */
  function Prepared(g: Grid, o: EulerOptions, st: Stepper, retry: bool, t: real): (r: Stepper)
    requires 0.0 < g.hMin <= g.hMax
    requires !o.oneStep ==> g.hMin <= st.h && g.hMin <= st.hMem
    ensures !o.oneStep ==> g.hMin <= r.h && g.hMin <= r.hMem
  {
    if o.oneStep || retry then st else Retarget(g, st, t)
  }

  lemma LoopStart(attempt: (real, seq<real>, real) -> (seq<real>, bool), g: Grid, o: EulerOptions,
                  t0: real, x0: seq<real>, tEnd: real, h: Option<real>)
    requires t0 < tEnd && g == ParseGrid(t0, tEnd, o)
    ensures LoopInv(attempt, g, o, t0, x0, [t0], [None], [x0],
                    InitialStepper(g, StartStep(g, o, h), CustomPoints(g, o.customTimePoints)), true, false, [])
    ensures 0 <= Dist(g, t0)
  {
    DistNonneg(g, t0);
  }

  /** An accepted attempt extends the trace and keeps the invariant; the
      loop goes on only while the new time is below T - h_min. */
  lemma AcceptKeeps(attempt: (real, seq<real>, real) -> (seq<real>, bool), g: Grid, o: EulerOptions,
                    t0: real, x0: seq<real>, ts: seq<real>, hs: seq<Option<real>>, xs: seq<seq<real>>,
                    st: Stepper, retry: bool, attempts: seq<Attempt>, x: seq<real>)
    requires LoopInv(attempt, g, o, t0, x0, ts, hs, xs, st, true, retry, attempts)
    requires g.hMin <= g.hMax
    requires var p := Prepared(g, o, st, retry, ts[|ts| - 1]);
      attempt(ts[|ts| - 1], xs[|xs| - 1], p.h) == (x, true)
    ensures var t := ts[|ts| - 1];
      var p := Prepared(g, o, st, retry, t);
      var running := !o.oneStep && t + p.h < g.tEnd - g.hMin;
      LoopInv(attempt, g, o, t0, x0, ts + [t + p.h], hs + [Some(p.h)], xs + [x],
              p.(sinceFail := p.sinceFail + 1), running, false, attempts + [Attempt(t, p.h, true)])
      && (running ==> 0 <= Dist(g, t + p.h) < Dist(g, t))
  {
    var t := ts[|ts| - 1];
    var p := Prepared(g, o, st, retry, t);
    TracedSnoc(attempt, t0, x0, ts, hs, xs, p.h, x);
    if !o.oneStep && t + p.h < g.tEnd - g.hMin {
      AcceptDrops(g, t, p.h);
    }
  }

  /** A failed attempt above h_min keeps the trace and leaves a retry with
      the reduced step. */
  lemma FailKeeps(attempt: (real, seq<real>, real) -> (seq<real>, bool), g: Grid, o: EulerOptions,
                  t0: real, x0: seq<real>, ts: seq<real>, hs: seq<Option<real>>, xs: seq<seq<real>>,
                  st: Stepper, retry: bool, attempts: seq<Attempt>)
    requires LoopInv(attempt, g, o, t0, x0, ts, hs, xs, st, true, retry, attempts)
    requires g.hMin <= g.hMax
    requires Prepared(g, o, st, retry, ts[|ts| - 1]).h > g.hMin
    ensures var t := ts[|ts| - 1];
      var p := Prepared(g, o, st, retry, t);
      LoopInv(attempt, g, o, t0, x0, ts, hs, xs, Fail(g, p), !o.oneStep, true, attempts + [Attempt(t, p.h, false)])
      && 0 <= Tries(g, Fail(g, p).h) < Tries(g, p.h)
  {
    var t := ts[|ts| - 1];
    var p := Prepared(g, o, st, retry, t);
    FailDrops(g, p);
    ShrinkSnoc(g, attempts, Attempt(t, p.h, false));
  }

  /** What the trace, the attempts and the step bounds say once the loop is
      left, normally or by a re-raised failure. */
  ghost predicate Concluded(attempt: (real, seq<real>, real) -> (seq<real>, bool), g: Grid, o: EulerOptions,
                            t0: real, x0: seq<real>, ts: seq<real>, hs: seq<Option<real>>, xs: seq<seq<real>>,
                            attempts: seq<Attempt>)
  {
    Traced(attempt, t0, x0, ts, hs, xs)
    && RetriesShrink(g, attempts)
    && (!o.oneStep ==> forall k :: 1 <= k < |hs| ==> hs[k].Some? && hs[k].value >= g.hMin)
    && (!o.oneStep ==> forall j :: 0 <= j < |attempts| ==> attempts[j].h >= g.hMin)
    && (o.oneStep ==> |attempts| == 1 && |ts| <= 2)
  }

  lemma ExitNormally(attempt: (real, seq<real>, real) -> (seq<real>, bool), g: Grid, o: EulerOptions,
                     t0: real, x0: seq<real>, ts: seq<real>, hs: seq<Option<real>>, xs: seq<seq<real>>,
                     st: Stepper, retry: bool, attempts: seq<Attempt>)
    requires LoopInv(attempt, g, o, t0, x0, ts, hs, xs, st, false, retry, attempts)
    ensures Concluded(attempt, g, o, t0, x0, ts, hs, xs, attempts)
    ensures !o.oneStep ==> ts[|ts| - 1] >= g.tEnd - g.hMin
  {
  }

  lemma ExitByFailure(attempt: (real, seq<real>, real) -> (seq<real>, bool), g: Grid, o: EulerOptions,
                      t0: real, x0: seq<real>, ts: seq<real>, hs: seq<Option<real>>, xs: seq<seq<real>>,
                      st: Stepper, retry: bool, attempts: seq<Attempt>)
    requires LoopInv(attempt, g, o, t0, x0, ts, hs, xs, st, true, retry, attempts)
    requires g.hMin <= g.hMax
    requires Prepared(g, o, st, retry, ts[|ts| - 1]).h <= g.hMin
    ensures Concluded(attempt, g, o, t0, x0, ts, hs, xs,
                      attempts + [Attempt(ts[|ts| - 1], Prepared(g, o, st, retry, ts[|ts| - 1]).h, false)])
  {
  }

  /** Where the integrate loop stands between two passes: the trace, the
      step-size state, whether it goes on, whether the next attempt is a
      retry, and the error it re-raises, if any. */
  datatype Config = Config(ts: seq<real>, hs: seq<Option<real>>, xs: seq<seq<real>>, st: Stepper,
                           running: bool, retry: bool, err: Option<IntegrationError>)

  /** What one pass needs of the state it starts from. */
  predicate Steppable(g: Grid, o: EulerOptions, c: Config)
  {
    0.0 < g.hMin <= g.hMax && |c.ts| >= 1 && |c.xs| >= 1
    && (!o.oneStep ==> g.hMin <= c.st.h && g.hMin <= c.st.hMem)
  }

  /** The attempt a pass makes from c: the last accepted time, the prepared
      step, and whether the solve from there succeeds. */
  function AttemptOf(attempt: (real, seq<real>, real) -> (seq<real>, bool), g: Grid, o: EulerOptions,
                     c: Config): Attempt
    requires Steppable(g, o, c)
  {
    var t := c.ts[|c.ts| - 1];
    var p := Prepared(g, o, c.st, c.retry, t);
    Attempt(t, p.h, attempt(t, c.xs[|c.xs| - 1], p.h).1)
  }

  /** Lines 133-197, one pass of the loop, as a function of the state it
      starts from: the step is prepared (kept for a single step or a retry,
      relaxed and snapped otherwise) and attempted. A success appends to
      Ts, Hs and Xs and stops once T - h_min is reached; a failure at
      h <= h_min is re-raised; any other failure keeps the trace and sets
      up a retry with h / 2.02, but not below h_min. */
  function StepFn(attempt: (real, seq<real>, real) -> (seq<real>, bool), g: Grid, o: EulerOptions,
                  c: Config): Config
    requires Steppable(g, o, c)
  {
    var t := c.ts[|c.ts| - 1];
    var p := Prepared(g, o, c.st, c.retry, t);
    var res := attempt(t, c.xs[|c.xs| - 1], p.h);
    if res.1 then
      Config(c.ts + [t + p.h], c.hs + [Some(p.h)], c.xs + [res.0], p.(sinceFail := p.sinceFail + 1),
             !o.oneStep && t + p.h < g.tEnd - g.hMin, false, None)
    else if p.h <= g.hMin then
      Config(c.ts, c.hs, c.xs, p, false, c.retry, Some(SolverFailed(t, p.h)))
    else
      Config(c.ts, c.hs, c.xs, Fail(g, p), !o.oneStep, true, None)
  }

  /** What a pass does in terms of the attempt it makes: a success extends
      the trace by that step; a failure keeps the trace, and is re-raised
      exactly when the attempted step was at most h_min; otherwise the
      retry's step is h / 2.02, but not below h_min. */
  lemma StepFnCases(attempt: (real, seq<real>, real) -> (seq<real>, bool), g: Grid, o: EulerOptions, c: Config)
    requires Steppable(g, o, c)
    ensures var a := AttemptOf(attempt, g, o, c);
      var r := StepFn(attempt, g, o, c);
      && (a.ok ==> r.err.None? && !r.retry && r.ts == c.ts + [a.t + a.h] && r.hs == c.hs + [Some(a.h)]
                   && r.xs == c.xs + [attempt(a.t, c.xs[|c.xs| - 1], a.h).0]
                   && (r.running <==> !o.oneStep && a.t + a.h < g.tEnd - g.hMin))
      && (!a.ok ==> r.ts == c.ts && r.hs == c.hs && r.xs == c.xs)
      && (!a.ok ==> (r.err.Some? <==> a.h <= g.hMin))
      && (!a.ok && a.h <= g.hMin ==> r.err == Some(SolverFailed(a.t, a.h)) && !r.running)
      && (!a.ok && a.h > g.hMin ==> r.retry && r.running == !o.oneStep
                                    && r.st.h == Max(g.hMin, a.h / 2.02) && r.st.sinceFail == 0)
  {
  }

  /** The state before the first pass (lines 115-129). */
  function StartConfig(g: Grid, o: EulerOptions, t0: real, x0: seq<real>, h: Option<real>): Config
    requires g.hMin <= g.hMax
  {
    Config([t0], [None], [x0], InitialStepper(g, StartStep(g, o, h), CustomPoints(g, o.customTimePoints)),
           true, false, None)
  }

  /** A run of the loop: each state but the last is running without an
      error and is followed by the pass StepFn makes from it, which makes
      the attempt recorded for it. */
  ghost predicate Run(attempt: (real, seq<real>, real) -> (seq<real>, bool), g: Grid, o: EulerOptions,
                      runs: seq<Config>, attempts: seq<Attempt>)
  {
    |runs| == |attempts| + 1
    && forall k :: 0 <= k < |attempts| ==>
         runs[k].running && runs[k].err.None? && Steppable(g, o, runs[k])
         && runs[k + 1] == StepFn(attempt, g, o, runs[k])
         && attempts[k] == AttemptOf(attempt, g, o, runs[k])
  }

  lemma RunSnoc(attempt: (real, seq<real>, real) -> (seq<real>, bool), g: Grid, o: EulerOptions,
                runs: seq<Config>, attempts: seq<Attempt>)
    requires Run(attempt, g, o, runs, attempts)
    requires var c := runs[|runs| - 1]; c.running && c.err.None? && Steppable(g, o, c)
    ensures var c := runs[|runs| - 1];
      Run(attempt, g, o, runs + [StepFn(attempt, g, o, c)], attempts + [AttemptOf(attempt, g, o, c)])
  {
    var c := runs[|runs| - 1];
    var runs', attempts' := runs + [StepFn(attempt, g, o, c)], attempts + [AttemptOf(attempt, g, o, c)];
    forall k | 0 <= k < |attempts'|
      ensures runs'[k].running && runs'[k].err.None? && Steppable(g, o, runs'[k])
              && runs'[k + 1] == StepFn(attempt, g, o, runs'[k])
              && attempts'[k] == AttemptOf(attempt, g, o, runs'[k])
    {
      if k < |attempts| {
        assert runs'[k] == runs[k] && runs'[k + 1] == runs[k + 1] && attempts'[k] == attempts[k];
      }
    }
  }

  /** The loop's measure goes down from c to r, in the lexicographic order
      of: running or not, how many h_min the last time is from T, a retry
      before a fresh step, and how many retries are left. */
  ghost predicate Below(g: Grid, r: Config, c: Config)
    requires g.hMin > 0.0 && |r.ts| >= 1 && |c.ts| >= 1
  {
    var d, d' := Dist(g, c.ts[|c.ts| - 1]), Dist(g, r.ts[|r.ts| - 1]);
    && (r.running ==> 0 <= d')
    && (|| !r.running
        || (r.running == c.running && d' < d)
        || (r.running == c.running && d' == d && !c.retry && r.retry)
        || (r.running == c.running && d' == d && c.retry == r.retry && Tries(g, r.st.h) < Tries(g, c.st.h)))
  }

  lemma AcceptBelow(g: Grid, r: Config, c: Config, t: real, h: real)
    requires g.hMin > 0.0 && |c.ts| >= 1 && c.running && t == c.ts[|c.ts| - 1] && r.ts == c.ts + [t + h]
    requires r.running ==> 0 <= Dist(g, t + h) < Dist(g, t)
    ensures |r.ts| >= 1 && Below(g, r, c)
  {
    assert r.ts[|r.ts| - 1] == t + h;
  }

  lemma RetryBelow(g: Grid, r: Config, c: Config)
    requires g.hMin > 0.0 && |c.ts| >= 1 && c.running && r.ts == c.ts && r.retry
    requires r.running ==> 0 <= Dist(g, c.ts[|c.ts| - 1])
    requires c.retry ==> Tries(g, r.st.h) < Tries(g, c.st.h)
    ensures |r.ts| >= 1 && Below(g, r, c)
  {
  }

  /** A successful pass keeps the loop invariant; going on, the loop gets
      closer to T. */
  lemma PassAccepts(attempt: (real, seq<real>, real) -> (seq<real>, bool), g: Grid, o: EulerOptions,
                    t0: real, x0: seq<real>, c: Config, attempts: seq<Attempt>)
    requires LoopInv(attempt, g, o, t0, x0, c.ts, c.hs, c.xs, c.st, true, c.retry, attempts) && g.hMin <= g.hMax
    requires Steppable(g, o, c) && c.running && AttemptOf(attempt, g, o, c).ok
    ensures var r := StepFn(attempt, g, o, c);
      r.err.None? && LoopInv(attempt, g, o, t0, x0, r.ts, r.hs, r.xs, r.st, r.running, r.retry,
                             attempts + [AttemptOf(attempt, g, o, c)])
      && |r.ts| >= 1 && Below(g, r, c)
  {
    var t := c.ts[|c.ts| - 1];
    var p := Prepared(g, o, c.st, c.retry, t);
    var res := attempt(t, c.xs[|c.xs| - 1], p.h);
    assert AttemptOf(attempt, g, o, c) == Attempt(t, p.h, true);
    assert res == (res.0, true);
    var r := Config(c.ts + [t + p.h], c.hs + [Some(p.h)], c.xs + [res.0], p.(sinceFail := p.sinceFail + 1),
                    !o.oneStep && t + p.h < g.tEnd - g.hMin, false, None);
    assert StepFn(attempt, g, o, c) == r;
    AcceptedConfig(attempt, g, o, t0, x0, c, attempts, res.0, r);
  }

  /** The configuration after an accepted attempt keeps the invariant and
      is closer to T than the one it came from. */
  lemma AcceptedConfig(attempt: (real, seq<real>, real) -> (seq<real>, bool), g: Grid, o: EulerOptions,
                       t0: real, x0: seq<real>, c: Config, attempts: seq<Attempt>, x: seq<real>, r: Config)
    requires LoopInv(attempt, g, o, t0, x0, c.ts, c.hs, c.xs, c.st, true, c.retry, attempts) && g.hMin <= g.hMax
    requires c.running
    requires var p := Prepared(g, o, c.st, c.retry, c.ts[|c.ts| - 1]);
      attempt(c.ts[|c.ts| - 1], c.xs[|c.xs| - 1], p.h) == (x, true)
    requires var t := c.ts[|c.ts| - 1];
      var p := Prepared(g, o, c.st, c.retry, t);
      r == Config(c.ts + [t + p.h], c.hs + [Some(p.h)], c.xs + [x], p.(sinceFail := p.sinceFail + 1),
                  !o.oneStep && t + p.h < g.tEnd - g.hMin, false, None)
    ensures var t := c.ts[|c.ts| - 1];
      LoopInv(attempt, g, o, t0, x0, r.ts, r.hs, r.xs, r.st, r.running, r.retry,
              attempts + [Attempt(t, Prepared(g, o, c.st, c.retry, t).h, true)])
    ensures |r.ts| >= 1 && Below(g, r, c)
  {
    var t := c.ts[|c.ts| - 1];
    AcceptKeeps(attempt, g, o, t0, x0, c.ts, c.hs, c.xs, c.st, c.retry, attempts, x);
    AcceptBelow(g, r, c, t, Prepared(g, o, c.st, c.retry, t).h);
  }

  /** A failed pass above h_min keeps the loop invariant and sets up a
      retry with fewer retries left. */
  lemma PassRetries(attempt: (real, seq<real>, real) -> (seq<real>, bool), g: Grid, o: EulerOptions,
                    t0: real, x0: seq<real>, c: Config, attempts: seq<Attempt>)
    requires LoopInv(attempt, g, o, t0, x0, c.ts, c.hs, c.xs, c.st, true, c.retry, attempts) && g.hMin <= g.hMax
    requires Steppable(g, o, c) && c.running && !AttemptOf(attempt, g, o, c).ok && AttemptOf(attempt, g, o, c).h > g.hMin
    ensures var r := StepFn(attempt, g, o, c);
      r.err.None? && r.ts == c.ts && r.retry
      && LoopInv(attempt, g, o, t0, x0, r.ts, r.hs, r.xs, r.st, r.running, r.retry,
                 attempts + [AttemptOf(attempt, g, o, c)])
      && |r.ts| >= 1 && Below(g, r, c)
  {
    var t := c.ts[|c.ts| - 1];
    var p := Prepared(g, o, c.st, c.retry, t);
    FailKeeps(attempt, g, o, t0, x0, c.ts, c.hs, c.xs, c.st, c.retry, attempts);
    if !o.oneStep {
      DistNonneg(g, t);
    }
    RetryBelow(g, StepFn(attempt, g, o, c), c);
    assert AttemptOf(attempt, g, o, c) == Attempt(t, p.h, false);
  }

  /** A failed pass at h_min ends the loop with the error it re-raises. */
  lemma PassGivesUp(attempt: (real, seq<real>, real) -> (seq<real>, bool), g: Grid, o: EulerOptions,
                    t0: real, x0: seq<real>, c: Config, attempts: seq<Attempt>)
    requires LoopInv(attempt, g, o, t0, x0, c.ts, c.hs, c.xs, c.st, true, c.retry, attempts) && g.hMin <= g.hMax
    requires Steppable(g, o, c) && !AttemptOf(attempt, g, o, c).ok && AttemptOf(attempt, g, o, c).h <= g.hMin
    ensures StepFn(attempt, g, o, c).err.Some?
    ensures GaveUp(attempt, g, o, t0, x0, StepFn(attempt, g, o, c), attempts + [AttemptOf(attempt, g, o, c)])
  {
    var t := c.ts[|c.ts| - 1];
    var p := Prepared(g, o, c.st, c.retry, t);
    ExitByFailure(attempt, g, o, t0, x0, c.ts, c.hs, c.xs, c.st, c.retry, attempts);
    var a := Attempt(t, p.h, false);
    assert AttemptOf(attempt, g, o, c) == a;
    assert StepFn(attempt, g, o, c) == Config(c.ts, c.hs, c.xs, p, false, c.retry, Some(SolverFailed(t, p.h)));
    assert (attempts + [a])[|attempts + [a]| - 1] == a;
  }

  /** Where a run from the start has got to: the passes so far follow
      StepFn from the start state, and, unless the last pass re-raised, the
      loop invariant holds for the state reached. */
  ghost predicate Reached(attempt: (real, seq<real>, real) -> (seq<real>, bool), g: Grid, o: EulerOptions,
                          t0: real, x0: seq<real>, h: Option<real>, runs: seq<Config>, attempts: seq<Attempt>)
    requires g.hMin <= g.hMax
  {
    Run(attempt, g, o, runs, attempts) && runs[0] == StartConfig(g, o, t0, x0, h)
    && var c := runs[|runs| - 1];
    (c.err.None? ==> LoopInv(attempt, g, o, t0, x0, c.ts, c.hs, c.xs, c.st, c.running, c.retry, attempts))
  }

  /** A run that re-raised: the trace conclusions hold, and the last attempt
      failed at h <= h_min from the last accepted time, with the error named
      after it. */
  ghost predicate GaveUp(attempt: (real, seq<real>, real) -> (seq<real>, bool), g: Grid, o: EulerOptions,
                         t0: real, x0: seq<real>, r: Config, attempts: seq<Attempt>)
  {
    Concluded(attempt, g, o, t0, x0, r.ts, r.hs, r.xs, attempts)
    && |attempts| > 0 && |r.ts| > 0
    && var a := attempts[|attempts| - 1];
    !a.ok && a.h <= g.hMin && a.t == r.ts[|r.ts| - 1] && r.err == Some(SolverFailed(a.t, a.h))
  }

  lemma RunStart(attempt: (real, seq<real>, real) -> (seq<real>, bool), g: Grid, o: EulerOptions,
                 t0: real, x0: seq<real>, tEnd: real, h: Option<real>)
    requires t0 < tEnd && g == ParseGrid(t0, tEnd, o)
    ensures g.hMin <= g.hMax && Reached(attempt, g, o, t0, x0, h, [StartConfig(g, o, t0, x0, h)], [])
    ensures 0 <= Dist(g, t0)
  {
    LoopStart(attempt, g, o, t0, x0, tEnd, h);
  }

  lemma ReachedSnoc(attempt: (real, seq<real>, real) -> (seq<real>, bool), g: Grid, o: EulerOptions,
                    t0: real, x0: seq<real>, h: Option<real>, runs: seq<Config>, attempts: seq<Attempt>)
    requires g.hMin <= g.hMax && Reached(attempt, g, o, t0, x0, h, runs, attempts)
    requires var c := runs[|runs| - 1]; c.running && c.err.None? && Steppable(g, o, c)
    requires var c := runs[|runs| - 1];
      var r := StepFn(attempt, g, o, c);
      r.err.None? ==> LoopInv(attempt, g, o, t0, x0, r.ts, r.hs, r.xs, r.st, r.running, r.retry,
                              attempts + [AttemptOf(attempt, g, o, c)])
    ensures var c := runs[|runs| - 1];
      Reached(attempt, g, o, t0, x0, h, runs + [StepFn(attempt, g, o, c)], attempts + [AttemptOf(attempt, g, o, c)])
  {
    var c := runs[|runs| - 1];
    RunSnoc(attempt, g, o, runs, attempts);
    var r := StepFn(attempt, g, o, c);
    assert (runs + [r])[0] == runs[0] && (runs + [r])[|runs + [r]| - 1] == r;
  }

  /** One more pass keeps the run reached: going on, the loop's measure goes
      down; re-raising, the run has given up. */
  lemma Pass(attempt: (real, seq<real>, real) -> (seq<real>, bool), g: Grid, o: EulerOptions,
             t0: real, x0: seq<real>, h: Option<real>, runs: seq<Config>, attempts: seq<Attempt>)
    requires g.hMin <= g.hMax && Reached(attempt, g, o, t0, x0, h, runs, attempts)
    requires runs[|runs| - 1].running && runs[|runs| - 1].err.None?
    ensures var c := runs[|runs| - 1];
      && Steppable(g, o, c)
      && var r := StepFn(attempt, g, o, c);
      && var attempts' := attempts + [AttemptOf(attempt, g, o, c)];
      && Reached(attempt, g, o, t0, x0, h, runs + [r], attempts')
      && (r.err.None? ==> Below(g, r, c))
      && (r.err.Some? ==> GaveUp(attempt, g, o, t0, x0, r, attempts'))
  {
    var c := runs[|runs| - 1];
    var a := AttemptOf(attempt, g, o, c);
    if a.ok {
      PassAccepts(attempt, g, o, t0, x0, c, attempts);
    } else if a.h > g.hMin {
      PassRetries(attempt, g, o, t0, x0, c, attempts);
    } else {
      PassGivesUp(attempt, g, o, t0, x0, c, attempts);
    }
    ReachedSnoc(attempt, g, o, t0, x0, h, runs, attempts);
  }

  /** A run that stopped without re-raising has the trace conclusions and
      has reached T - h_min, unless it was a single step. */
  lemma RunStops(attempt: (real, seq<real>, real) -> (seq<real>, bool), g: Grid, o: EulerOptions,
                 t0: real, x0: seq<real>, h: Option<real>, runs: seq<Config>, attempts: seq<Attempt>)
    requires g.hMin <= g.hMax && Reached(attempt, g, o, t0, x0, h, runs, attempts)
    requires !runs[|runs| - 1].running && runs[|runs| - 1].err.None?
    ensures var c := runs[|runs| - 1];
      && Concluded(attempt, g, o, t0, x0, c.ts, c.hs, c.xs, attempts)
      && (!o.oneStep ==> c.ts[|c.ts| - 1] >= g.tEnd - g.hMin)
  {
    var c := runs[|runs| - 1];
    ExitNormally(attempt, g, o, t0, x0, c.ts, c.hs, c.xs, c.st, c.retry, attempts);
  }

  /** How integrate ends: the passes follow StepFn from the start state
      and the trace returned is the last state's; the trace conclusions
      hold; the result is the report exactly when the last state stopped
      without an error, having reached T - h_min unless it was a single
      step; otherwise it is the error re-raised for a last attempt that
      failed at h <= h_min from the last accepted time. */
  ghost predicate Ended(attempt: (real, seq<real>, real) -> (seq<real>, bool), g: Grid, o: EulerOptions,
                        t0: real, x0: seq<real>, h: Option<real>, runs: seq<Config>, attempts: seq<Attempt>,
                        r: Result<IntegrationReport, IntegrationError>,
                        ts: seq<real>, hs: seq<Option<real>>, xs: seq<seq<real>>)
  {
    && g.hMin <= g.hMax && Run(attempt, g, o, runs, attempts) && runs[0] == StartConfig(g, o, t0, x0, h)
    && var last := runs[|runs| - 1];
    && last.ts == ts && last.hs == hs && last.xs == xs
    && Concluded(attempt, g, o, t0, x0, ts, hs, xs, attempts)
    && (r.Ok? <==> !last.running && last.err.None?)
    && (r.Ok? ==> && r.value == IntegrationReport(ts, hs, xs, "ImpEuler integration complete")
                  && (!o.oneStep ==> ts[|ts| - 1] >= g.tEnd - g.hMin))
    && (r.Err? ==> && last.err == Some(r.error)
                   && |attempts| > 0 && !attempts[|attempts| - 1].ok
                   && attempts[|attempts| - 1].h <= g.hMin
                   && attempts[|attempts| - 1].t == ts[|ts| - 1]
                   && r.error == SolverFailed(attempts[|attempts| - 1].t, attempts[|attempts| - 1].h))
  }

  lemma RunEnds(attempt: (real, seq<real>, real) -> (seq<real>, bool), g: Grid, o: EulerOptions,
                t0: real, x0: seq<real>, h: Option<real>, runs: seq<Config>, attempts: seq<Attempt>,
                r: Result<IntegrationReport, IntegrationError>)
    requires g.hMin <= g.hMax && Reached(attempt, g, o, t0, x0, h, runs, attempts)
    requires var last := runs[|runs| - 1];
      || (last.err.Some? && GaveUp(attempt, g, o, t0, x0, last, attempts) && r == Err(last.err.value))
      || (!last.running && last.err.None?
          && r == Ok(IntegrationReport(last.ts, last.hs, last.xs, "ImpEuler integration complete")))
    ensures var last := runs[|runs| - 1];
      Ended(attempt, g, o, t0, x0, h, runs, attempts, r, last.ts, last.hs, last.xs)
  {
    if r.Ok? {
      RunStops(attempt, g, o, t0, x0, h, runs, attempts);
    }
  }

  /** One pass of the integrate loop, lines 133-197: prepare the step,
      attempt it from the last accepted time, then accept it, retry with a
      reduced step, or give up at h_min with the error the loop re-raises. */
  method IntegrateStep(attempt: (real, seq<real>, real) -> (seq<real>, bool), g: Grid, o: EulerOptions,
                       c: Config) returns (r: Config)
    requires Steppable(g, o, c)
    ensures r == StepFn(attempt, g, o, c)
  {
    var t := c.ts[|c.ts| - 1];
    var p := if o.oneStep || c.retry then c.st else Retarget(g, c.st, t);
    var res := attempt(t, c.xs[|c.xs| - 1], p.h);
    if res.1 {
      var running := !o.oneStep && t + p.h < g.tEnd - g.hMin;
      r := Config(c.ts + [t + p.h], c.hs + [Some(p.h)], c.xs + [res.0], p.(sinceFail := p.sinceFail + 1),
                  running, false, None);
    } else if p.h <= g.hMin {
      r := Config(c.ts, c.hs, c.xs, p, false, c.retry, Some(SolverFailed(t, p.h)));
    } else {
      r := Config(c.ts, c.hs, c.xs, Fail(g, p), !o.oneStep, true, None);
    }
  }

  /** One pass of the loop with what it keeps: the run reached from the
      start grows by the pass and its attempt, and the pass either lowers
      the loop's measure or gives up. */
  method Advance(attempt: (real, seq<real>, real) -> (seq<real>, bool), g: Grid, o: EulerOptions,
                 ghost t0: real, ghost x0: seq<real>, ghost h: Option<real>,
                 ghost runs: seq<Config>, ghost attempts: seq<Attempt>, c: Config)
    returns (next: Config, ghost a: Attempt)
    requires g.hMin <= g.hMax && Reached(attempt, g, o, t0, x0, h, runs, attempts)
    requires runs[|runs| - 1] == c && c.running && c.err.None?
    ensures Reached(attempt, g, o, t0, x0, h, runs + [next], attempts + [a])
    ensures |next.ts| >= 1 && |c.ts| >= 1
    ensures next.err.None? ==> Below(g, next, c)
    ensures next.err.Some? ==> GaveUp(attempt, g, o, t0, x0, next, attempts + [a])
  {
    Pass(attempt, g, o, t0, x0, h, runs, attempts);
    a := AttemptOf(attempt, g, o, c);
    next := IntegrateStep(attempt, g, o, c);
  }

  /** integrate. attempt(t, x, h) stands for ImpEulerStep from (t, x) with
      step h, solved by the sparse Newton solver with the options' range
      tolerances: it returns the new state and whether the solve succeeded
      (a raised NLinSolveError counts as no success). After a failure the
      next attempt is the reduced step itself: it is not snapped to T, the
      grid or a checkpoint again. */
  method Integrate(attempt: (real, seq<real>, real) -> (seq<real>, bool),
                   x0: seq<real>, t0: real, tEnd: real, h: Option<real>, o: EulerOptions)
    returns (r: Result<IntegrationReport, IntegrationError>,
             ghost ts: seq<real>, ghost hs: seq<Option<real>>, ghost xs: seq<seq<real>>,
             ghost attempts: seq<Attempt>, ghost runs: seq<Config>)
    requires t0 < tEnd
    ensures Ended(attempt, ParseGrid(t0, tEnd, o), o, t0, x0, h, runs, attempts, r, ts, hs, xs)
  {
    var g := ParseGrid(t0, tEnd, o);
    RunStart(attempt, g, o, t0, x0, tEnd, h);
    var c := StartConfig(g, o, t0, x0, h);
    attempts := [];
    runs := [c];
    while c.running
      invariant Reached(attempt, g, o, t0, x0, h, runs, attempts)
      invariant runs[|runs| - 1] == c && c.err.None? && (c.running ==> 0 <= Dist(g, c.ts[|c.ts| - 1]))
      decreases (if c.running then 1 else 0), Dist(g, c.ts[|c.ts| - 1]), (if c.retry then 0 else 1), Tries(g, c.st.h)
    {
      var next, a := Advance(attempt, g, o, t0, x0, h, runs, attempts, c);
      attempts, runs := attempts + [a], runs + [next];
      if next.err.Some? {
        r := Err(next.err.value);
        RunEnds(attempt, g, o, t0, x0, h, runs, attempts, r);
        return r, next.ts, next.hs, next.xs, attempts, runs;
      }
      c := next;
    }
    r := Ok(IntegrationReport(c.ts, c.hs, c.xs, "ImpEuler integration complete"));
    RunEnds(attempt, g, o, t0, x0, h, runs, attempts, r);
    ts, hs, xs := c.ts, c.hs, c.xs;
  }
}
