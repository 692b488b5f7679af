/** Homotopy continuation: a path-follower in the homotopy parameter mu from
    0 to 1. Each stage solves the mu-problem from the current iterate; a
    success moves the reset point to mu and, from the second success in a
    row on, grows the step; a failure shrinks the step, returns to the reset
    point and stops once the step sits at its floor. */
module Homotopy {
  import opened Wrappers
  import opened RealFacts

  /** The options of homotopy_options that the stepping reads. */
  datatype HomotopyOptions = HomotopyOptions(
    maxIt: int,
    muStepInitial: real, muStepMin: real, muStepMax: real,
    expansion: real, shrink: real,
    noConvergenceIsError: bool)

  /** The defaults of homotopy_options. */
  function DefaultOptions(): HomotopyOptions
  {
    HomotopyOptions(100, 1.0e-1, 1.0e-2, 1.0e-1, 1.9, 0.5, true)
  }

  /** The stepping options under which the path-follower terminates. */
  predicate StepOptionsOk(o: HomotopyOptions)
  {
    0.0 < o.muStepMin <= o.muStepInitial <= o.muStepMax && o.expansion >= 1.0 && 0.0 < o.shrink < 1.0
  }

  lemma DefaultsOk()
    ensures StepOptionsOk(DefaultOptions())
    ensures DefaultOptions().muStepInitial == DefaultOptions().muStepMax
  {
  }

  /** The stepping state: mu, the reset point, the step and the number of
      consecutive successes. */
  datatype Stage = Stage(mu: real, muReset: real, muStep: real, succs: nat)

  /** The first stage: mu = mu_reset = 0 with the initial step. */
  function Start(o: HomotopyOptions): (s: Stage)
    ensures s.mu == 0.0 && s.muReset == 0.0 && s.muStep == o.muStepInitial && s.succs == 0
  {
    Stage(0.0, 0.0, o.muStepInitial, 0)
  }

  /** The stepping scheme after one stage: None when a failure leaves the
      step at its floor (the loop breaks), else the next stage. */
  function Advance(o: HomotopyOptions, s: Stage, success: bool): (r: Option<Stage>)
    ensures success ==> r.Some? && r.value.succs == s.succs + 1 && r.value.muReset == s.mu
    ensures !success ==> (r.None? <==> Max(o.shrink * s.muStep, o.muStepMin) <= o.muStepMin)
    ensures !success && r.Some? ==> r.value.succs == 0 && r.value.muReset == s.muReset
    ensures r.Some? ==> r.value.mu == r.value.muReset + r.value.muStep
  {
    var succs := if success then s.succs + 1 else 0;
    var muReset := if success then s.mu else s.muReset;
    var stepped: Option<(real, real)> :=
      if success then
        Some((s.mu, if succs > 1 then Min(o.expansion * s.muStep, o.muStepMax) else s.muStep))
      else
        var step := Max(o.shrink * s.muStep, o.muStepMin);
        if step > o.muStepMin then Some((muReset, step)) else None;
    match stepped
    case None => None
    case Some((mu, step)) =>
      if mu + step >= 1.0 then Some(Stage(1.0, muReset, 1.0 - mu, succs))
      else Some(Stage(mu + step, muReset, step, succs))
  }

  /** A success after two in a row grows the step by the expansion factor,
      capped at mu_step_max; a failure above the floor shrinks it by the
      shrink factor; a stage never passes mu = 1, where the last step is
      clipped to 1 - mu. */
  lemma AdvanceSteps(o: HomotopyOptions, s: Stage, success: bool)
    requires Advance(o, s, success).Some?
    ensures var r := Advance(o, s, success).value;
      var base := if success then s.mu else s.muReset;
      var step := if !success then o.shrink * s.muStep
                  else if s.succs + 1 > 1 then Min(o.expansion * s.muStep, o.muStepMax) else s.muStep;
      (base + step >= 1.0 ==> r.mu == 1.0 && r.muStep == 1.0 - base)
      && (base + step < 1.0 ==> r.mu == base + step && r.muStep == step)
  {
  }

  /** The stepping keeps 0 <= mu_reset <= mu <= 1, and away from mu = 1 the
      step stays within [mu_step_min, mu_step_max]. */
  ghost predicate Inv(o: HomotopyOptions, s: Stage)
  {
    0.0 <= s.muReset <= s.mu <= 1.0 && 0.0 < s.muStep <= o.muStepMax
    && (s.mu < 1.0 ==> s.muStep >= o.muStepMin)
  }

  lemma AdvanceKeepsInv(o: HomotopyOptions, s: Stage, success: bool)
    requires StepOptionsOk(o) && Inv(o, s) && s.mu < 1.0
    requires Advance(o, s, success).Some?
    ensures Inv(o, Advance(o, s, success).value)
  {
    if success {
      SuccessKeepsInv(o, s);
    } else {
      FailureKeepsInv(o, s);
    }
  }

  lemma SuccessKeepsInv(o: HomotopyOptions, s: Stage)
    requires StepOptionsOk(o) && Inv(o, s) && s.mu < 1.0
    ensures Advance(o, s, true).Some? && Inv(o, Advance(o, s, true).value)
  {
    GrowBounds(o, s.muStep);
    var step := if s.succs + 1 > 1 then Min(o.expansion * s.muStep, o.muStepMax) else s.muStep;
    AdvanceSteps(o, s, true);
    ClipKeepsInv(o, s.mu, step, Advance(o, s, true).value);
  }

  lemma FailureKeepsInv(o: HomotopyOptions, s: Stage)
    requires StepOptionsOk(o) && Inv(o, s) && s.mu < 1.0
    requires Advance(o, s, false).Some?
    ensures Inv(o, Advance(o, s, false).value)
  {
    ShrunkStep(o, s.muStep);
    AdvanceSteps(o, s, false);
    ClipKeepsInv(o, s.muReset, o.shrink * s.muStep, Advance(o, s, false).value);
  }

  lemma GrowBounds(o: HomotopyOptions, step: real)
    requires StepOptionsOk(o) && o.muStepMin <= step <= o.muStepMax
    ensures o.muStepMin <= Min(o.expansion * step, o.muStepMax) <= o.muStepMax
  {
    MulMono(step, o.expansion, 1.0);
  }

  /** A shrunk step that stays above the floor stays within the bounds. */
  lemma ShrunkStep(o: HomotopyOptions, step: real)
    requires StepOptionsOk(o) && 0.0 < step <= o.muStepMax
    requires Max(o.shrink * step, o.muStepMin) > o.muStepMin
    ensures o.muStepMin <= o.shrink * step <= o.muStepMax
  {
    ShrinkBelow(o.shrink, step, o.muStepMax);
  }

  /** A factor strictly between 0 and 1 shrinks a positive amount. */
  lemma ShrinkBelow(k: real, x: real, m: real)
    requires 0.0 < k < 1.0 && 0.0 < x <= m
    ensures 0.0 < k * x < x && k * x < m
  {
    PosMul(1.0 - k, x);
    PosMul(k, x);
  }

  /** A stage stepped from base by a step within the bounds, clipped at 1, keeps Inv. */
  lemma ClipKeepsInv(o: HomotopyOptions, base: real, step: real, t: Stage)
    requires StepOptionsOk(o) && 0.0 <= base < 1.0 && o.muStepMin <= step <= o.muStepMax
    requires t.muReset == base
    requires base + step >= 1.0 ==> t.mu == 1.0 && t.muStep == 1.0 - base
    requires base + step < 1.0 ==> t.mu == base + step && t.muStep == step
    ensures Inv(o, t)
  {
  }

  lemma StartInv(o: HomotopyOptions)
    requires StepOptionsOk(o)
    ensures Inv(o, Start(o))
  {
  }

  // ---------------------------------------------------------------------
  // Termination: what a stage that does not complete gives up

  /** The least amount a failure above the floor takes off the step:
      shrink * step <= step - (1 - shrink) * mu_step_min. */
  function Decrement(o: HomotopyOptions): real
  {
    (1.0 - o.shrink) * o.muStepMin
  }

  lemma ShrinkDrop(o: HomotopyOptions, step: real)
    requires StepOptionsOk(o) && step >= o.muStepMin
    ensures Decrement(o) > 0.0
    ensures o.shrink * step <= step - Decrement(o)
  {
    MulMono(1.0 - o.shrink, step, o.muStepMin);
  }

  /** How far the reset point is from 2, in minimal steps: a success that
      leaves the reset point moves it by at least one. */
  function Budget(o: HomotopyOptions, s: Stage): int
    requires o.muStepMin > 0.0
  {
    ((2.0 - s.muReset) / o.muStepMin).Floor
  }

  function AtReset(s: Stage): int
  {
    if s.mu == s.muReset then 1 else 0
  }

  /** The step in units of Decrement: a failure above the floor lowers it. */
  function Units(o: HomotopyOptions, s: Stage): int
    requires StepOptionsOk(o)
  {
    ShrinkDrop(o, o.muStepMin);
    (s.muStep / Decrement(o)).Floor
  }

  /** A stage that does not complete makes progress: a success either moves
      the reset point by at least the minimal step or leaves the start point;
      a failure above the floor keeps the reset point and takes at least
      Decrement off the step. */
  lemma Progress(o: HomotopyOptions, s: Stage, success: bool)
    requires StepOptionsOk(o) && Inv(o, s) && s.mu + 0.01 * o.muStepMin <= 1.0
    requires s.mu == s.muReset + s.muStep || (s.mu == 0.0 && s.muReset == 0.0)
    requires Advance(o, s, success).Some?
    ensures var t := Advance(o, s, success).value;
      0 <= Budget(o, t) <= Budget(o, s)
      && (Budget(o, t) == Budget(o, s) ==>
            AtReset(t) < AtReset(s) || (AtReset(t) == AtReset(s) && 0 <= Units(o, t) < Units(o, s)))
  {
    var t := Advance(o, s, success).value;
    AdvanceKeepsInv(o, s, success);
    if success {
      SuccessProgress(o, s, t);
    } else {
      FailureProgress(o, s, t);
    }
  }

  lemma SuccessProgress(o: HomotopyOptions, s: Stage, t: Stage)
    requires StepOptionsOk(o) && Inv(o, s) && Inv(o, t) && s.mu + 0.01 * o.muStepMin <= 1.0
    requires s.mu == s.muReset + s.muStep || (s.mu == 0.0 && s.muReset == 0.0)
    requires Advance(o, s, true) == Some(t)
    ensures 0 <= Budget(o, t) <= Budget(o, s)
    ensures Budget(o, t) == Budget(o, s) ==> AtReset(t) < AtReset(s)
  {
    assert t.mu == t.muReset + t.muStep && t.muStep > 0.0;
    if s.mu != s.muReset {
      FloorDrop(o.muStepMin, 2.0 - s.muReset, 2.0 - t.muReset);
    } else {
      FloorDrop(o.muStepMin, 2.0 - s.muReset + o.muStepMin, 2.0 - t.muReset);
    }
  }

  lemma FailureProgress(o: HomotopyOptions, s: Stage, t: Stage)
    requires StepOptionsOk(o) && Inv(o, s) && s.mu + 0.01 * o.muStepMin <= 1.0
    requires Advance(o, s, false) == Some(t)
    ensures t.muReset == s.muReset && AtReset(t) == 0
    ensures 0 <= Units(o, t) < Units(o, s)
  {
    var shrunk := o.shrink * s.muStep;
    AdvanceSteps(o, s, false);
    ShrinkBelow(o.shrink, s.muStep, s.muStep);
    ShrinkDrop(o, s.muStep);
    assert shrunk <= s.muStep - Decrement(o);
    if s.muReset + shrunk >= 1.0 {
      assert t.muStep == 1.0 - s.muReset;
    } else {
      assert t.muStep == shrunk;
    }
    assert 0.0 < t.muStep <= shrunk;
    FloorDrop(Decrement(o), s.muStep, t.muStep);
  }

  // ---------------------------------------------------------------------
  // The path-follower

  /** The report of a run that did not raise. */
  datatype Report = Report(x: seq<real>, success: bool, nit: int, status: int, fun: seq<real>)

  /** The stages solved so far: they start from Start(o) and x0's stage,
      every stage but the last returned from the inner solver, was not the
      completing one and stepped to the next by Advance, the next iterate
      being the solver's on success and the same one otherwise. */
  ghost predicate Traced(o: HomotopyOptions, solve: (real, seq<real>) -> Result<(seq<real>, bool), string>,
                         stages: seq<Stage>, xs: seq<seq<real>>)
  {
    |stages| == |xs| >= 1 && stages[0] == Start(o)
    && forall k :: 0 <= k < |stages| - 1 ==> StepsTo(o, solve, stages[k], xs[k], stages[k + 1], xs[k + 1])
  }

  /** The stage s from x returned from the inner solver, did not complete,
      and stepped by Advance to s' from x', the solver's iterate on success
      and x otherwise. */
  ghost predicate StepsTo(o: HomotopyOptions, solve: (real, seq<real>) -> Result<(seq<real>, bool), string>,
                          s: Stage, x: seq<real>, s': Stage, x': seq<real>)
  {
    var res := solve(s.mu, x);
    res.Ok? && s.mu + 0.01 * o.muStepMin <= 1.0 && Advance(o, s, res.value.1) == Some(s')
    && x' == (if res.value.1 then res.value.0 else x)
  }

  /** The last stage ends the loop: its solve raised, or it completed
      (mu within a hundredth of the minimal step of 1), or it failed with
      the step at its floor. */
  ghost predicate Last(o: HomotopyOptions, solve: (real, seq<real>) -> Result<(seq<real>, bool), string>,
                       s: Stage, x: seq<real>)
  {
    var res := solve(s.mu, x);
    res.Err? || s.mu + 0.01 * o.muStepMin > 1.0 || Advance(o, s, res.value.1).None?
  }

  /** What the loop returns after its last stage s from x: the inner
      solver's error; else 'did not converge' when that is an error and the
      last solve failed; else the report, whose nit counts the stages
      stepped (all of them, unless the last failed at the floor). */
  ghost function Outcome(o: HomotopyOptions, fun: seq<real> -> seq<real>,
                         solve: (real, seq<real>) -> Result<(seq<real>, bool), string>,
                         s: Stage, x: seq<real>, count: nat): Result<Report, string>
  {
    var res := solve(s.mu, x);
    if res.Err? then Err(res.error)
    else
      var success := res.value.1;
      var x' := if success then res.value.0 else x;
      if o.noConvergenceIsError && !success then Err("Did not converge!")
      else Ok(Report(x', success, if Advance(o, s, success).None? then count - 1 else count, if success then 1 else 0, fun(x')))
  }

  /** Appending the stage that Advance gives after the last one, with the
      iterate it leaves, extends the trace. */
  lemma TracedSnoc(o: HomotopyOptions, solve: (real, seq<real>) -> Result<(seq<real>, bool), string>,
                   stages: seq<Stage>, xs: seq<seq<real>>, next: Stage, x': seq<real>)
    requires Traced(o, solve, stages, xs)
    requires StepsTo(o, solve, stages[|stages| - 1], xs[|xs| - 1], next, x')
    ensures Traced(o, solve, stages + [next], xs + [x'])
  {
    var stages', xs' := stages + [next], xs + [x'];
    forall k | 0 <= k < |stages'| - 1
      ensures StepsTo(o, solve, stages'[k], xs'[k], stages'[k + 1], xs'[k + 1])
    {
      assert stages'[k] == stages[k] && xs'[k] == xs[k];
      if k == |stages| - 1 {
        assert stages'[k + 1] == next && xs'[k + 1] == x';
      } else {
        assert stages'[k + 1] == stages[k + 1] && xs'[k + 1] == xs[k + 1];
      }
    }
  }

  /** The loop has stopped after the last stage: its solve returned,
      success and x are its result, it ends the loop, and idx counts the
      stages stepped. */
  ghost predicate Stopped(o: HomotopyOptions, solve: (real, seq<real>) -> Result<(seq<real>, bool), string>,
                          stages: seq<Stage>, xs: seq<seq<real>>, success: bool, x: seq<real>, idx: int)
    requires |stages| == |xs| >= 1
  {
    var s, x0 := stages[|stages| - 1], xs[|xs| - 1];
    var res := solve(s.mu, x0);
    res.Ok? && success == res.value.1 && x == (if success then res.value.0 else x0)
    && Last(o, solve, s, x0)
    && idx == (if Advance(o, s, success).None? then |stages| - 1 else |stages|)
  }

  /** The footer of homotopy_solve gives the outcome of the last stage. */
  lemma StoppedOutcome(o: HomotopyOptions, fun: seq<real> -> seq<real>,
                       solve: (real, seq<real>) -> Result<(seq<real>, bool), string>,
                       stages: seq<Stage>, xs: seq<seq<real>>, success: bool, x: seq<real>, idx: int)
    requires |stages| == |xs| >= 1 && Stopped(o, solve, stages, xs, success, x, idx)
    ensures Outcome(o, fun, solve, stages[|stages| - 1], xs[|xs| - 1], |stages|)
            == if o.noConvergenceIsError && !success then Err("Did not converge!")
               else Ok(Report(x, success, idx, if success then 1 else 0, fun(x)))
  {
  }

  /** homotopy_solve. solve(mu, x) stands for the nonlinear solver run on the
      mu-problem from x: its error, or its final iterate and success flag.
      stages and xs are the stepping states and start iterates of the stages
      solved; the last one is the stage that ends the loop. */
  method HomotopySolve(fun: seq<real> -> seq<real>, solve: (real, seq<real>) -> Result<(seq<real>, bool), string>,
                       o: HomotopyOptions, x0: seq<real>)
    returns (r: Result<Report, string>, ghost stages: seq<Stage>, ghost xs: seq<seq<real>>)
    requires StepOptionsOk(o)
    ensures Traced(o, solve, stages, xs) && xs[0] == x0
    ensures forall k :: 0 <= k < |stages| ==> Inv(o, stages[k])
    ensures Last(o, solve, stages[|stages| - 1], xs[|xs| - 1])
    ensures r == Outcome(o, fun, solve, stages[|stages| - 1], xs[|xs| - 1], |stages|)
  {
    var x := x0;
    var st := Start(o);
    StartInv(o);
    stages, xs := [st], [x];
    var success := false;
    var idx := 0;
    var completion := false;
    while !completion
      invariant Traced(o, solve, stages, xs) && xs[0] == x0
      invariant forall k :: 0 <= k < |stages| ==> Inv(o, stages[k])
      invariant !completion ==> stages[|stages| - 1] == st && xs[|xs| - 1] == x && idx == |stages| - 1
      invariant !completion ==> st.mu == st.muReset + st.muStep || (st.mu == 0.0 && st.muReset == 0.0)
      invariant completion ==> Stopped(o, solve, stages, xs, success, x, idx)
      decreases (if completion then 0 else 1), Budget(o, st), AtReset(st), Units(o, st)
    {
      var res := solve(st.mu, x);
      if res.Err? {
        return Err(res.error), stages, xs;
      }
      success := res.value.1;
      if st.mu + 0.01 * o.muStepMin > 1.0 {
        completion := true;
      }
      var next := Advance(o, st, success);
      if success {
        x := res.value.0;
      }
      if next.None? {
        assert Stopped(o, solve, stages, xs, success, x, idx);
        break;
      }
      ghost var prev := st;
      st := next.value;
      idx := idx + 1;
      if !completion {
        AdvanceKeepsInv(o, prev, success);
        Progress(o, prev, success);
        TracedSnoc(o, solve, stages, xs, st, x);
        stages, xs := stages + [st], xs + [x];
      }
    }
    StoppedOutcome(o, fun, solve, stages, xs, success, x, idx);
    if o.noConvergenceIsError && !success {
      return Err("Did not converge!"), stages, xs;
    }
    r := Ok(Report(x, success, idx, if success then 1 else 0, fun(x)));
  }

  /** A success never ends the loop at the floor, so a successful last
      stage is the completing one. */
  lemma SuccessCompletes(o: HomotopyOptions, solve: (real, seq<real>) -> Result<(seq<real>, bool), string>,
                         s: Stage, x: seq<real>)
    requires Last(o, solve, s, x) && solve(s.mu, x).Ok? && solve(s.mu, x).value.1
    ensures s.mu + 0.01 * o.muStepMin > 1.0
  {
  }
}
