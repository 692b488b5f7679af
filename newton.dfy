/** The damped Newton method for sparse nonlinear systems: a loop over Newton
    steps that keeps a possibly stale Jacobian, recomputes it when the linear
    solve fails or the step stalls, damps each step by a line search on the
    residual norm, and stops on any of five tolerance criteria (the hard root
    criterion gating success when it is set). Also the optional row scaling
    of the Jacobian. */
module Newton {
  import opened Wrappers

  // ---------------------------------------------------------------------
  // Options and results

  /** The solver options; tolerances are scalars, None switches a criterion off. */
  datatype NewtonOptions = NewtonOptions(
    atolDom: Option<real>, rtolDom: Option<real>,
    atolRange: Option<real>, rtolRange: Option<real>,
    atolRoot: Option<real>,
    maxIt: int,
    maxTimesJConstant: Option<int>,
    gammaMin: real,
    noConvergenceIsError: bool,
    applyRowScaling: bool)

  /** The defaults of sparse_newton_options. */
  function DefaultOptions(): NewtonOptions
  {
    NewtonOptions(Some(1.0e-8), Some(1.0e-6), Some(1.0e-8), Some(1.0e-6), None,
                  100, Some(4), 1.0e-12, true, true)
  }

  /** The report of a solve that did not raise. */
  datatype Report = Report(x: seq<real>, success: bool, nit: int, status: int, fun: seq<real>)

  /** Why a solve raised NLinSolveError. */
  datatype NewtonError = NoCriterion | LinSolveRaised | NoArray | OutOfDomain | NotConverged

  /** What the linear solver does with (A, b, A_did_change). */
  datatype LinSolve = Solved(dir: seq<real>) | LinSolveFailed | NotAnArray

  /** Some convergence criterion is switched on. */
  predicate AnyCriterion(o: NewtonOptions)
  {
    o.atolDom.Some? || o.rtolDom.Some? || o.atolRange.Some? || o.rtolRange.Some? || o.atolRoot.Some?
  }

  /** The hard root criterion gates success: atol_root is set and not 0.0
      (the source tests the truth value of atol_root). */
  predicate RootGates(o: NewtonOptions)
  {
    o.atolRoot.Some? && o.atolRoot.value != 0.0
  }

  lemma DefaultsUsable()
    ensures AnyCriterion(DefaultOptions()) && !RootGates(DefaultOptions())
    ensures DefaultOptions().gammaMin > 0.0 && DefaultOptions().maxIt == 100
  {
  }

  // ---------------------------------------------------------------------
  // Vector helpers

  function Abs(x: real): real { if x < 0.0 then -x else x }

  /** x + gamma * d. */
  function Axpy(x: seq<real>, gamma: real, d: seq<real>): (r: seq<real>)
    requires |d| == |x|
    ensures |r| == |x| && forall i :: 0 <= i < |x| ==> r[i] == x[i] + gamma * d[i]
  {
    seq(|x|, i requires 0 <= i < |x| => x[i] + gamma * d[i])
  }

  /** -(s * f), entry by entry. */
  function NegScaled(s: seq<real>, f: seq<real>): (r: seq<real>)
    requires |s| == |f|
    ensures |r| == |f| && forall i :: 0 <= i < |f| ==> r[i] == -(s[i] * f[i])
  {
    seq(|f|, i requires 0 <= i < |f| => -(s[i] * f[i]))
  }

  /** The squared Euclidean norm; norms are compared through it, since the
      square root is monotone. */
  function NormSq(v: seq<real>): (r: real)
    ensures r >= 0.0
  {
    if |v| == 0 then 0.0 else NormSq(v[..|v| - 1]) + v[|v| - 1] * v[|v| - 1]
  }

  /** Every entry of |a - b| is below the bound. */
  predicate DiffBelow(a: seq<real>, b: seq<real>, bound: real)
    requires |a| == |b|
  {
    forall i :: 0 <= i < |a| ==> Abs(a[i] - b[i]) < bound
  }

  /** Every entry of |a - b| is below rtol times the old value. */
  predicate DiffBelowRel(a: seq<real>, b: seq<real>, rtol: real)
    requires |a| == |b|
  {
    forall i :: 0 <= i < |a| ==> Abs(a[i] - b[i]) < rtol * b[i]
  }

  // ---------------------------------------------------------------------
  // Convergence criteria

  datatype Conds = Conds(atolDom: bool, rtolDom: bool, atolRange: bool, rtolRange: bool, atolRoot: bool)

  /** The five criteria of one step, from the tolerance-transformed old and new
      iterates (tx) and function values (tf). */
  function Criteria(o: NewtonOptions, txOld: seq<real>, txNew: seq<real>, tfOld: seq<real>, tfNew: seq<real>): (c: Conds)
    requires |txOld| == |txNew| && |tfOld| == |tfNew|
    ensures c.atolDom <==> o.atolDom.Some? && forall i :: 0 <= i < |txNew| ==> Abs(txNew[i] - txOld[i]) < o.atolDom.value
    ensures c.rtolDom <==> o.rtolDom.Some? && forall i :: 0 <= i < |txNew| ==> Abs(txNew[i] - txOld[i]) < o.rtolDom.value * txOld[i]
    ensures c.atolRange <==> o.atolRange.Some? && forall i :: 0 <= i < |tfNew| ==> Abs(tfNew[i] - tfOld[i]) < o.atolRange.value
    ensures c.rtolRange <==> o.rtolRange.Some? && forall i :: 0 <= i < |tfNew| ==> Abs(tfNew[i] - tfOld[i]) < o.rtolRange.value * tfOld[i]
    ensures c.atolRoot <==> o.atolRoot.Some? && forall i :: 0 <= i < |tfNew| ==> Abs(tfNew[i]) < o.atolRoot.value
  {
    Conds(
      o.atolDom.Some? && DiffBelow(txNew, txOld, o.atolDom.value),
      o.rtolDom.Some? && DiffBelowRel(txNew, txOld, o.rtolDom.value),
      o.atolRange.Some? && DiffBelow(tfNew, tfOld, o.atolRange.value),
      o.rtolRange.Some? && DiffBelowRel(tfNew, tfOld, o.rtolRange.value),
      o.atolRoot.Some? && forall i :: 0 <= i < |tfNew| ==> Abs(tfNew[i]) < o.atolRoot.value)
  }

  /** A step ends the iteration successfully: some criterion holds and, when
      the root criterion gates, the root criterion itself. */
  predicate Accepts(o: NewtonOptions, c: Conds)
  {
    (c.atolDom || c.rtolDom || c.atolRange || c.rtolRange || c.atolRoot)
    && (!RootGates(o) || c.atolRoot)
  }

  /** Only a switched-on criterion can accept, and a gating root tolerance
      bounds every entry of the new transformed residual. */
  lemma AcceptedMeansCriterion(o: NewtonOptions, txOld: seq<real>, txNew: seq<real>, tfOld: seq<real>, tfNew: seq<real>)
    requires |txOld| == |txNew| && |tfOld| == |tfNew|
    requires Accepts(o, Criteria(o, txOld, txNew, tfOld, tfNew))
    ensures AnyCriterion(o)
    ensures RootGates(o) ==> forall i :: 0 <= i < |tfNew| ==> Abs(tfNew[i]) < o.atolRoot.value
  {
  }

  /** With atol_root at 0.0 the root criterion never holds on a non-empty
      residual, and it does not gate success either. */
  lemma ZeroRootNeverHolds(o: NewtonOptions, txOld: seq<real>, txNew: seq<real>, tfOld: seq<real>, tfNew: seq<real>)
    requires |txOld| == |txNew| && |tfOld| == |tfNew| && |tfNew| > 0
    requires o.atolRoot == Some(0.0)
    ensures !Criteria(o, txOld, txNew, tfOld, tfNew).atolRoot && !RootGates(o)
  {
    assert !(Abs(tfNew[0]) < 0.0);
  }

  // ---------------------------------------------------------------------
  // Line search

  /** gamma / gammaMin drops by at least one whole unit when gamma is halved
      while it is at least gammaMin. */
  lemma FloorDrops(gamma: real, gammaMin: real, by_: real)
    requires gammaMin > 0.0 && gamma >= gammaMin && by_ >= 2.0
    ensures 0 <= ((gamma / by_) / gammaMin).Floor < (gamma / gammaMin).Floor
  {
    var y := gamma / gammaMin;
    assert y >= 1.0;
    assert (gamma / by_) / gammaMin == y / by_;
    assert y / by_ <= y / 2.0;
    assert y.Floor >= 1;
    assert y / 2.0 < y.Floor as real;
  }

  /** The accepted candidate of a line search. */
  datatype Candidate = Candidate(x: seq<real>, f: seq<real>, gamma: real, recompute: bool)

  /** What one line search works on: the system function, its domain test
      and the range tolerance function; the iterate x and the Newton
      direction; the squared norm of the transformed residual at x; the
      floor gamma_min; whether the Jacobian is stale and whether a
      recompute is already pending. */
  datatype Damping = Damping(fun: seq<real> -> seq<real>, inDomain: seq<real> -> bool,
                             tolRange: seq<real> -> seq<real>,
                             x: seq<real>, dir: seq<real>, tfNormSq: real, gammaMin: real,
                             stale: bool, recompute: bool)

  predicate Damps(d: Damping)
  {
    d.gammaMin > 0.0 && |d.dir| == |d.x|
  }

  /** The candidate x + gamma * dir. */
  function Trial(d: Damping, gamma: real): (r: seq<real>)
    requires Damps(d)
    ensures |r| == |d.x|
  {
    Axpy(d.x, gamma, d.dir)
  }

  /** The residual norm does not decrease at gamma. */
  predicate NoDecrease(d: Damping, gamma: real)
    requires Damps(d)
  {
    NormSq(d.tolRange(d.fun(Trial(d, gamma)))) >= d.tfNormSq
  }

  /** The line search passes over gamma: the candidate is out of the domain,
      or it does not decrease the residual norm while no recompute is
      pending or due and gamma / 100 stays above gamma_min. */
  predicate Rejected(d: Damping, gamma: real)
    requires Damps(d)
  {
    !d.inDomain(Trial(d, gamma))
    || (NoDecrease(d, gamma) && !d.recompute && !d.stale && gamma / 100.0 > d.gammaMin)
  }

  /** The gamma tried after a rejected one: halved out of the domain,
      divided by 100 otherwise. */
  function NextGamma(d: Damping, gamma: real): (r: real)
    requires Damps(d) && gamma > 0.0
    ensures 0.0 < r < gamma
  {
    if !d.inDomain(Trial(d, gamma)) then gamma / 2.0 else gamma / 100.0
  }

  /** The termination measure of the damping loop. */
  function Rungs(d: Damping, gamma: real): int
    requires Damps(d)
  {
    if gamma < d.gammaMin then 0 else (gamma / d.gammaMin).Floor + 1
  }

  lemma RungsDrop(d: Damping, gamma: real)
    requires Damps(d) && gamma >= d.gammaMin
    ensures 0 <= Rungs(d, NextGamma(d, gamma)) < Rungs(d, gamma)
  {
    FloorDrops(gamma, d.gammaMin, if !d.inDomain(Trial(d, gamma)) then 2.0 else 100.0);
  }

  /** The damping loop from gamma on (the source starts it at 1): fails once
      gamma drops below gamma_min, tries the next gamma on a rejected one,
      and otherwise accepts the candidate, requesting a Jacobian recompute
      when one was pending, the Jacobian is stale or the norm did not
      decrease. */
  function Search(d: Damping, gamma: real): (r: Result<Candidate, NewtonError>)
    requires Damps(d)
    decreases Rungs(d, gamma)
  {
    if gamma < d.gammaMin then Err(OutOfDomain)
    else if Rejected(d, gamma) then
      RungsDrop(d, gamma);
      Search(d, NextGamma(d, gamma))
    else
      var x1 := Trial(d, gamma);
      Ok(Candidate(x1, d.fun(x1), gamma, d.recompute || d.stale || NoDecrease(d, gamma)))
  }

  /** The gammas the damping loop tries from gamma on. */
  ghost function Trail(d: Damping, gamma: real): seq<real>
    requires Damps(d)
    decreases Rungs(d, gamma)
  {
    if gamma < d.gammaMin then []
    else if Rejected(d, gamma) then
      RungsDrop(d, gamma);
      [gamma] + Trail(d, NextGamma(d, gamma))
    else [gamma]
  }

  /** The trail starts at gamma, stays within [gamma_min, gamma] and
      follows NextGamma through rejected gammas. */
  ghost predicate TrailShape(d: Damping, gamma: real, t: seq<real>)
    requires Damps(d)
  {
    (|t| > 0 <==> gamma >= d.gammaMin) && (|t| > 0 ==> t[0] == gamma)
    && (forall k :: 0 <= k < |t| ==> d.gammaMin <= t[k] <= gamma)
    && (forall k :: 0 <= k < |t| - 1 ==> Rejected(d, t[k]) && t[k + 1] == NextGamma(d, t[k]))
  }

  /** The line search takes the first gamma of the sequence 1, then halved
      out of the domain or divided by 100 on no decrease, that is not
      rejected; it fails with 'out of domain' exactly when every gamma down
      to gamma_min was rejected. */
  lemma {:induction false} SearchFirstAcceptable(d: Damping, gamma: real)
    requires Damps(d)
    decreases Rungs(d, gamma)
    ensures var t := Trail(d, gamma);
      && TrailShape(d, gamma, t)
      && (Search(d, gamma).Ok? <==> |t| > 0 && !Rejected(d, t[|t| - 1]))
      && (Search(d, gamma).Ok? ==> Search(d, gamma).value.gamma == t[|t| - 1])
      && (Search(d, gamma).Err? ==> Search(d, gamma).error == OutOfDomain
                                    && (|t| == 0 || NextGamma(d, t[|t| - 1]) < d.gammaMin))
  {
    if gamma >= d.gammaMin && Rejected(d, gamma) {
      RungsDrop(d, gamma);
      var g := NextGamma(d, gamma);
      SearchFirstAcceptable(d, g);
      TrailCons(d, gamma, g, Trail(d, g));
    }
  }

  lemma TrailCons(d: Damping, gamma: real, g: real, t: seq<real>)
    requires Damps(d) && gamma >= d.gammaMin && Rejected(d, gamma) && g == NextGamma(d, gamma)
    requires TrailShape(d, g, t)
    ensures TrailShape(d, gamma, [gamma] + t)
  {
    var t' := [gamma] + t;
    forall k | 0 <= k < |t'| - 1 ensures Rejected(d, t'[k]) && t'[k + 1] == NextGamma(d, t'[k]) {
      if k > 0 {
        assert t'[k] == t[k - 1] && t'[k + 1] == t[k];
      }
    }
  }

  /** An accepted candidate is x + gamma * dir for a gamma in
      [gamma_min, 1], lies in the domain and carries fun of itself; it asks
      for a recompute exactly when one was pending, the Jacobian is stale
      or the norm did not decrease, and a non-decrease with neither of the
      first two happens only once gamma / 100 <= gamma_min. */
  lemma {:induction false} SearchAccepts(d: Damping, gamma: real)
    requires Damps(d)
    decreases Rungs(d, gamma)
    ensures Search(d, gamma).Ok? ==>
      var c := Search(d, gamma).value;
      && d.gammaMin <= c.gamma <= gamma
      && c.x == Axpy(d.x, c.gamma, d.dir) && c.f == d.fun(c.x) && d.inDomain(c.x)
      && c.recompute == (d.recompute || d.stale || NormSq(d.tolRange(c.f)) >= d.tfNormSq)
      && (c.recompute && !d.recompute && !d.stale ==> c.gamma / 100.0 <= d.gammaMin)
  {
    if gamma >= d.gammaMin && Rejected(d, gamma) {
      RungsDrop(d, gamma);
      SearchAccepts(d, NextGamma(d, gamma));
    }
  }

  /** The damping loop of sparse_nl_solve, starting at gamma = 1. */
  method LineSearch(d: Damping) returns (r: Result<Candidate, NewtonError>)
    requires Damps(d)
    ensures r == Search(d, 1.0)
  {
    var gamma := 1.0;
    var recompute := d.recompute;
    while gamma >= d.gammaMin
      invariant gamma > 0.0 && Search(d, gamma) == Search(d, 1.0) && recompute == d.recompute
      decreases Rungs(d, gamma)
    {
      var x1 := Axpy(d.x, gamma, d.dir);
      var f1 := d.fun(x1);
      RungsDrop(d, gamma);
      if !d.inDomain(x1) {
        gamma := gamma / 2.0;
        continue;
      }
      var tf1 := d.tolRange(f1);
      if d.stale {
        recompute := true;
      }
      var nonDecreasing := NormSq(tf1) >= d.tfNormSq;
      if nonDecreasing {
        if !recompute {
          if gamma / 100.0 > d.gammaMin {
            gamma := gamma / 100.0;
            continue;
          } else {
            recompute := true;
          }
        }
      }
      return Ok(Candidate(x1, f1, gamma, recompute));
    }
    return Err(OutOfDomain);
  }

  // ---------------------------------------------------------------------
  // The Newton loop

  /** The callbacks of a solve: the system function and its domain test
      (inDomain(x) says that fun(x) has no NaN or Inf entry), the (possibly
      row-scaled) Jacobian returning the matrix and its scaling vector, the
      linear solver, and the tolerance functions. */
  datatype Callbacks<!M> = Callbacks(fun: seq<real> -> seq<real>, inDomain: seq<real> -> bool,
                                    jac: seq<real> -> (M, seq<real>), linsolve: (M, seq<real>, bool) -> LinSolve,
                                    tolDom: seq<real> -> seq<real>, tolRange: seq<real> -> seq<real>)

  /** The callbacks keep their shapes: fun maps n entries to m, the Jacobian
      callback returns m scaling factors, the tolerance functions keep
      lengths and a solved direction has n entries. */
  ghost predicate Shaped<M(!new)>(cb: Callbacks<M>, n: nat, m: nat)
  {
    (forall x: seq<real> :: |x| == n ==> |cb.fun(x)| == m)
    && (forall x: seq<real> :: |x| == n ==> |cb.jac(x).1| == m)
    && (forall v: seq<real> :: |cb.tolDom(v)| == |v|)
    && (forall v: seq<real> :: |cb.tolRange(v)| == |v|)
    && (forall a: M, b: seq<real>, c: bool :: cb.linsolve(a, b, c).Solved? ==> |cb.linsolve(a, b, c).dir| == n)
  }

  /** The state between Newton steps: the iterate, fun at it, the current
      Jacobian and scaling, the step index of the latest Jacobian change,
      the step index, and the iterate before the last step. */
  datatype Iterate<M> = Iterate(x: seq<real>, f: seq<real>, j: M, scaling: seq<real>,
                                latestChange: int, idx: int, prevX: seq<real>)

  ghost predicate Fits<M(!new)>(cb: Callbacks<M>, o: NewtonOptions, it: Iterate<M>)
  {
    o.gammaMin > 0.0 && Shaped(cb, |it.x|, |it.f|) && it.f == cb.fun(it.x) && |it.scaling| == |it.f|
    && 0 <= it.latestChange <= it.idx && |it.prevX| == |it.x|
  }

  /** The first iterate: x0, with the Jacobian evaluated there. */
  function Start<M>(cb: Callbacks<M>, x0: seq<real>): Iterate<M>
  {
    Iterate(x0, cb.fun(x0), cb.jac(x0).0, cb.jac(x0).1, 0, 0, x0)
  }

  /** What one pass of the Newton loop does: Restart after recomputing a
      stale Jacobian that the linear solver rejected (the step is repeated),
      Stepped to the next iterate (accepted when the criteria accept it), or
      Failed. */
  datatype Outcome<M> = Restart(next: Iterate<M>) | Stepped(next: Iterate<M>, accepted: bool) | Failed(error: NewtonError)

  /** The damping problem of the step from it along dir. */
  function DampingAt<M>(cb: Callbacks<M>, o: NewtonOptions, it: Iterate<M>, dir: seq<real>): Damping
  {
    var stale := o.maxTimesJConstant.Some? && it.idx - it.latestChange >= o.maxTimesJConstant.value;
    Damping(cb.fun, cb.inDomain, cb.tolRange, it.x, dir, NormSq(cb.tolRange(it.f)), o.gammaMin, stale, false)
  }

  /** One pass of the Newton loop. */
  function NewtonStep<M(!new)>(cb: Callbacks<M>, o: NewtonOptions, it: Iterate<M>): Outcome<M>
    requires Fits(cb, o, it)
  {
    var changed := it.idx == it.latestChange;
    var solved := cb.linsolve(it.j, NegScaled(it.scaling, it.f), changed);
    if solved.NotAnArray? then Failed(NoArray)
    else if solved.LinSolveFailed? then
      if changed then Failed(LinSolveRaised)
      else Restart(it.(j := cb.jac(it.x).0, scaling := cb.jac(it.x).1, latestChange := it.idx))
    else
      SearchAccepts(DampingAt(cb, o, it, solved.dir), 1.0);
      match Search(DampingAt(cb, o, it, solved.dir), 1.0)
      case Err(e) => Failed(e)
      case Ok(c) =>
        var conds := Criteria(o, cb.tolDom(it.x), cb.tolDom(c.x), cb.tolRange(it.f), cb.tolRange(c.f));
        var next := if c.recompute then Iterate(c.x, c.f, cb.jac(c.x).0, cb.jac(c.x).1, it.idx + 1, it.idx + 1, it.x)
                    else Iterate(c.x, c.f, it.j, it.scaling, it.latestChange, it.idx + 1, it.x);
        Stepped(next, Accepts(o, conds))
  }

  /** A Restart happens only on a stale Jacobian the linear solver
      rejected; it recomputes the Jacobian at the same iterate and repeats
      the same step. A rejection of a fresh Jacobian fails with
      LinSolveRaised. A Stepped pass advances the step index by one from
      the iterate it leaves, to a candidate in the domain. */
  lemma StepCases<M(!new)>(cb: Callbacks<M>, o: NewtonOptions, it: Iterate<M>)
    requires Fits(cb, o, it)
    ensures var solved := cb.linsolve(it.j, NegScaled(it.scaling, it.f), it.idx == it.latestChange);
      && (NewtonStep(cb, o, it).Restart? <==> solved.LinSolveFailed? && it.idx != it.latestChange)
      && (NewtonStep(cb, o, it) == Failed(LinSolveRaised) <==> solved.LinSolveFailed? && it.idx == it.latestChange)
      && (NewtonStep(cb, o, it) == Failed(NoArray) <==> solved.NotAnArray?)
    ensures NewtonStep(cb, o, it).Restart? ==>
      var n := NewtonStep(cb, o, it).next;
      n == it.(j := cb.jac(it.x).0, scaling := cb.jac(it.x).1, latestChange := it.idx) && Fits(cb, o, n)
    ensures NewtonStep(cb, o, it).Stepped? ==>
      var n := NewtonStep(cb, o, it).next;
      && n.idx == it.idx + 1 && n.prevX == it.x && cb.inDomain(n.x) && Fits(cb, o, n)
      && (NewtonStep(cb, o, it).accepted <==>
            Accepts(o, Criteria(o, cb.tolDom(it.x), cb.tolDom(n.x), cb.tolRange(it.f), cb.tolRange(n.f))))
    ensures NewtonStep(cb, o, it).Failed? ==> NewtonStep(cb, o, it).error in {LinSolveRaised, NoArray, OutOfDomain}
  {
    var solved := cb.linsolve(it.j, NegScaled(it.scaling, it.f), it.idx == it.latestChange);
    if solved.Solved? {
      var d := DampingAt(cb, o, it, solved.dir);
      SearchAccepts(d, 1.0);
      SearchFirstAcceptable(d, 1.0);
    }
  }

  /** The termination measure of the Newton loop: a Restart keeps the step
      index and makes the Jacobian fresh. */
  function Fresh<M>(it: Iterate<M>): int
  {
    if it.latestChange == it.idx then 0 else 1
  }

  /** The Newton loop from it on: it ends on an accepted step (success), a
      failure, or once the step index reaches max_it (an error when
      no_convergence_is_Error). */
  function Iterations<M(!new)>(cb: Callbacks<M>, o: NewtonOptions, it: Iterate<M>): Result<(Iterate<M>, bool), NewtonError>
    requires Fits(cb, o, it)
    decreases o.maxIt - it.idx, Fresh(it)
  {
    if it.idx >= o.maxIt then
      if o.noConvergenceIsError then Err(NotConverged) else Ok((it, false))
    else
      StepCases(cb, o, it);
      match NewtonStep(cb, o, it)
      case Failed(e) => Err(e)
      case Restart(n) => Iterations(cb, o, n)
      case Stepped(n, accepted) => if accepted then Ok((n, true)) else Iterations(cb, o, n)
  }

  /** sparse_nl_solve on its callbacks: no criterion switched on is an
      error; otherwise the Newton loop from x0, reported with nit the step
      index and status 1 exactly on success. */
  function NlSolve<M(!new)>(cb: Callbacks<M>, o: NewtonOptions, x0: seq<real>): Result<Report, NewtonError>
    requires o.gammaMin > 0.0 && Shaped(cb, |x0|, |cb.fun(x0)|)
  {
    if !AnyCriterion(o) then Err(NoCriterion)
    else
      match Iterations(cb, o, Start(cb, x0))
      case Err(e) => Err(e)
      case Ok((it, success)) => Ok(Report(it.x, success, it.idx, if success then 1 else 0, it.f))
  }

  /** How the Newton loop ends. Success comes from a step from the iterate
      before (prevX) that the criteria accept, within max_it steps; without
      success the loop ran to max_it and non-convergence is no error; the
      only errors are those of a step and NotConverged, the latter only when
      non-convergence is an error. The step index never falls, and moves
      into the domain when it rises. */
  lemma {:induction false} IterationsEnd<M(!new)>(cb: Callbacks<M>, o: NewtonOptions, it: Iterate<M>)
    requires Fits(cb, o, it)
    decreases o.maxIt - it.idx, Fresh(it)
    ensures match Iterations(cb, o, it)
      case Ok((n, success)) =>
        && Fits(cb, o, n) && n.idx >= it.idx && (n.idx > it.idx ==> cb.inDomain(n.x))
        && (success ==> it.idx < n.idx <= o.maxIt
                        && Accepts(o, Criteria(o, cb.tolDom(n.prevX), cb.tolDom(n.x), cb.tolRange(cb.fun(n.prevX)), cb.tolRange(n.f))))
        && (!success ==> !o.noConvergenceIsError && n.idx == (if it.idx >= o.maxIt then it.idx else o.maxIt))
      case Err(e) => e != NoCriterion && (e == NotConverged ==> o.noConvergenceIsError)
  {
    if it.idx < o.maxIt {
      StepCases(cb, o, it);
      match NewtonStep(cb, o, it)
      case Failed(e) =>
      case Restart(n) =>
        IterationsEnd(cb, o, n);
      case Stepped(n, accepted) =>
        if !accepted {
          IterationsEnd(cb, o, n);
        }
    }
  }

  /** What a solve reports: 'no criterion' exactly when every tolerance is
      None, 'did not converge' only when that is an error; a report has nit
      steps within max_it, status 1 exactly on success, x of the size of x0
      and fun(x); without success nit is max_it and non-convergence is no
      error; with success at least one step was taken. */
  lemma NlSolveReport<M(!new)>(cb: Callbacks<M>, o: NewtonOptions, x0: seq<real>)
    requires o.gammaMin > 0.0 && Shaped(cb, |x0|, |cb.fun(x0)|)
    ensures var r := NlSolve(cb, o, x0);
      && (r == Err(NoCriterion) <==> !AnyCriterion(o))
      && (r == Err(NotConverged) ==> o.noConvergenceIsError)
      && (r.Ok? ==> 0 <= r.value.nit && (r.value.nit <= o.maxIt || r.value.nit == 0))
      && (r.Ok? ==> |r.value.x| == |x0| && r.value.fun == cb.fun(r.value.x))
      && (r.Ok? ==> r.value.status == (if r.value.success then 1 else 0))
      && (r.Ok? && r.value.nit > 0 ==> cb.inDomain(r.value.x))
      && (r.Ok? && !r.value.success ==> !o.noConvergenceIsError && r.value.nit == (if o.maxIt < 0 then 0 else o.maxIt))
      && (r.Ok? && r.value.success ==> 1 <= r.value.nit)
  {
    if AnyCriterion(o) {
      IterationsEnd(cb, o, Start(cb, x0));
    }
  }

  /** One pass of the Newton loop of sparse_nl_solve: the linear solve with
      the current Jacobian, the Jacobian recompute when the solver rejects
      a stale one, the line search, the optional recompute at the new
      iterate and the criteria. */
  method Pass<M(!new)>(cb: Callbacks<M>, o: NewtonOptions, it: Iterate<M>) returns (out: Outcome<M>)
    requires Fits(cb, o, it)
    ensures out == NewtonStep(cb, o, it)
  {
    var constantFor := it.idx - it.latestChange;
    var changed := constantFor == 0;
    var solved := cb.linsolve(it.j, NegScaled(it.scaling, it.f), changed);
    if solved.NotAnArray? {
      return Failed(NoArray);
    }
    if solved.LinSolveFailed? {
      if !changed {
        var pair := cb.jac(it.x);
        return Restart(it.(j := pair.0, scaling := pair.1, latestChange := it.idx));
      } else {
        return Failed(LinSolveRaised);
      }
    }
    var stale := o.maxTimesJConstant.Some? && constantFor >= o.maxTimesJConstant.value;
    var tfN := cb.tolRange(it.f);
    var d := Damping(cb.fun, cb.inDomain, cb.tolRange, it.x, solved.dir, NormSq(tfN), o.gammaMin, stale, false);
    var step := LineSearch(d);
    if step.Err? {
      return Failed(step.error);
    }
    SearchAccepts(d, 1.0);
    var cand := step.value;
    var jN1, scalingN1 := it.j, it.scaling;
    if cand.recompute {
      var pair := cb.jac(cand.x);
      jN1, scalingN1 := pair.0, pair.1;
    }
    var conds := Criteria(o, cb.tolDom(it.x), cb.tolDom(cand.x), tfN, cb.tolRange(cand.f));
    var latestChange := if cand.recompute then it.idx + 1 else it.latestChange;
    var next := Iterate(cand.x, cand.f, jN1, scalingN1, latestChange, it.idx + 1, it.x);
    return Stepped(next, Accepts(o, conds));
  }

  /** sparse_nl_solve: the damped Newton loop over the callbacks, with a
      possibly stale Jacobian that is recomputed when the linear solver
      rejects it or the step stalls. */
  method SparseNlSolve<M(!new)>(cb: Callbacks<M>, o: NewtonOptions, x0: seq<real>) returns (r: Result<Report, NewtonError>)
    requires Shaped(cb, |x0|, |cb.fun(x0)|)
    requires o.gammaMin > 0.0
    ensures r == NlSolve(cb, o, x0)
  {
    if !AnyCriterion(o) {
      return Err(NoCriterion);
    }
    var it := Start(cb, x0);
    ghost var start := it;
    while it.idx < o.maxIt
      invariant Fits(cb, o, it) && Iterations(cb, o, it) == Iterations(cb, o, start)
      decreases o.maxIt - it.idx, Fresh(it)
    {
      StepCases(cb, o, it);
      var out := Pass(cb, o, it);
      match out
      case Failed(e) =>
        return Err(e);
      case Restart(n) =>
        it := n;
      case Stepped(n, accepted) =>
        if accepted {
          return Ok(Report(n.x, true, n.idx, 1, n.f));
        }
        it := n;
    }
    if o.noConvergenceIsError {
      return Err(NotConverged);
    }
    return Ok(Report(it.x, false, it.idx, 0, it.f));
  }

  // ---------------------------------------------------------------------
  // Row scaling

  /** x * c (kept as a function so that the solver multiplies only where asked). */
  function Times(x: real, c: real): real { x * c }

  /** v is the reciprocal of s. */
  predicate Reciprocal(v: real, s: real) { v * s == 1.0 }

  lemma RecipOf(s: real)
    requires s != 0.0
    ensures Reciprocal(1.0 / s, s)
  {
  }

  /** The sum of the absolute values. */
  function AbsSum(s: seq<real>): real
  {
    if |s| == 0 then 0.0 else AbsSum(s[..|s| - 1]) + Abs(s[|s| - 1])
  }

  /** Multiplying by c >= 0 multiplies the sum of absolute values by c. */
  lemma {:induction false} AbsSumScale(s: seq<real>, c: real, t: seq<real>)
    requires c >= 0.0 && |t| == |s| && forall k :: 0 <= k < |s| ==> t[k] == s[k] * c
    ensures AbsSum(t) == AbsSum(s) * c
  {
    if |s| > 0 {
      var n := |s| - 1;
      PrefixScaled(s, c, t, n);
      AbsSumScale(s[..n], c, t[..n]);
      AbsSumScaleStep(s, c, t);
    }
  }

  lemma PrefixScaled(s: seq<real>, c: real, t: seq<real>, n: nat)
    requires n <= |t| == |s| && forall k :: 0 <= k < |s| ==> t[k] == s[k] * c
    ensures forall k :: 0 <= k < n ==> t[..n][k] == s[..n][k] * c
  {
  }

  /** The last step of AbsSumScale: the prefix sums scale, so do the sums. */
  lemma {:induction false} AbsSumScaleStep(s: seq<real>, c: real, t: seq<real>)
    requires c >= 0.0 && |t| == |s| > 0 && t[|s| - 1] == s[|s| - 1] * c
    requires AbsSum(t[..|s| - 1]) == AbsSum(s[..|s| - 1]) * c
    ensures AbsSum(t) == AbsSum(s) * c
  {
    var n := |s| - 1;
    assert AbsSum(t) == AbsSum(t[..n]) + Abs(t[n]);
    assert AbsSum(s) == AbsSum(s[..n]) + Abs(s[n]);
    AbsScale(s[n], c);
    assert Abs(t[n]) == Abs(s[n]) * c;
    Distribute(AbsSum(t[..n]), Abs(t[n]), AbsSum(s[..n]), Abs(s[n]), c, AbsSum(t), AbsSum(s));
  }

  /** x + y = (a + b) c from x = a c and y = b c, over opaque terms. */
  lemma Distribute(x: real, y: real, a: real, b: real, c: real, sumT: real, sumS: real)
    requires x == a * c && y == b * c && sumT == x + y && sumS == a + b
    ensures sumT == sumS * c
  {
  }

  lemma AbsScale(x: real, c: real)
    requires c >= 0.0
    ensures Abs(x * c) == Abs(x) * c
  {
    if x < 0.0 {
      assert x * c <= 0.0;
    } else {
      assert x * c >= 0.0;
    }
  }

  /** A CSR matrix whose stored entries are updated in place. */
  class CsrMatrix {
    var data: array<real>
    var indptr: seq<nat>
    const numRows: nat

    ghost predicate Valid()
      reads this
    {
      |indptr| == numRows + 1 && indptr[0] == 0 && indptr[numRows] == data.Length
      && forall a, b :: 0 <= a <= b <= numRows ==> indptr[a] <= indptr[b]
    }

    /** The stored entries of row i. */
    function Row(i: nat): (r: seq<real>)
      requires Valid() && i < numRows
      reads this, data
      ensures |r| == indptr[i + 1] - indptr[i]
    {
      data[indptr[i]..indptr[i + 1]]
    }

    /** The absolute row sums. */
    ghost function RowSums(): (r: seq<real>)
      requires Valid()
      reads this, data
      ensures |r| == numRows && forall k :: 0 <= k < numRows ==> r[k] == AbsSum(Row(k))
    {
      seq(numRows, k requires 0 <= k < numRows && Valid() reads this, data => AbsSum(Row(k)))
    }

    constructor (data: array<real>, indptr: seq<nat>, numRows: nat)
      requires |indptr| == numRows + 1 && indptr[0] == 0 && indptr[numRows] == data.Length
      requires forall a, b :: 0 <= a <= b <= numRows ==> indptr[a] <= indptr[b]
      ensures Valid() && this.data == data && this.indptr == indptr && this.numRows == numRows
    {
      this.data := data;
      this.indptr := indptr;
      this.numRows := numRows;
    }

    /** matrix_row_scaling: without scaling the matrix stays and the scaling
        vector is all ones; with scaling each row is multiplied by the
        reciprocal of the sum of its absolute stored entries. */
    method RowScaling(applyScaling: bool) returns (v: seq<real>)
      requires Valid()
      requires applyScaling ==> forall i :: 0 <= i < numRows ==> AbsSum(Row(i)) != 0.0
      modifies data
      ensures Valid() && |v| == numRows
      ensures !applyScaling ==> data[..] == old(data[..]) && forall i :: 0 <= i < numRows ==> v[i] == 1.0
      ensures applyScaling ==> forall i :: 0 <= i < numRows ==> Reciprocal(v[i], AbsSum(old(data[..])[indptr[i]..indptr[i + 1]]))
      ensures applyScaling ==> forall i, p :: 0 <= i < numRows && indptr[i] <= p < indptr[i + 1] ==> data[p] == Times(old(data[p]), v[i])
    {
      if !applyScaling {
        v := seq(numRows, _ => 1.0);
        return;
      }
      v := ScaleAllRows();
    }

    /** The scaling loop over the rows (each entry of the all-ones vector
        divided by its row's sum, which is the same as appending 1 / sum). */
    method ScaleAllRows() returns (v: seq<real>)
      requires Valid()
      requires forall i :: 0 <= i < numRows ==> AbsSum(Row(i)) != 0.0
      modifies data
      ensures |v| == numRows
      ensures forall i :: 0 <= i < numRows ==> Reciprocal(v[i], old(AbsSum(Row(i))))
      ensures forall i, p :: 0 <= i < numRows && indptr[i] <= p < indptr[i + 1] ==> data[p] == Times(old(data[p]), v[i])
    {
      v := [];
      ghost var sums := RowSums();
      ghost var start := data[..];
      var i := 0;
      while i < numRows
        invariant 0 <= i <= numRows && |v| == i
        invariant forall k :: 0 <= k < i ==> Reciprocal(v[k], sums[k])
        invariant ScaledUpTo(start, data[..], indptr, v, i)
        invariant forall k :: 0 <= k < numRows ==> sums[k] == AbsSum(start[indptr[k]..indptr[k + 1]]) && sums[k] != 0.0
      {
        assert indptr[i] <= indptr[i + 1] <= indptr[numRows];
        assert Row(i) == start[indptr[i]..indptr[i + 1]] by {
          assert forall p :: indptr[i] <= p < indptr[i + 1] ==> data[..][p] == start[p];
        }
        ghost var mid := data[..];
        var c := NormalizeRow(i, 1.0);
        ScaledStep(start, mid, data[..], indptr, v, i, c);
        v := v + [c];
        i := i + 1;
      }
      forall k, p | 0 <= k < numRows && indptr[k] <= p < indptr[k + 1]
        ensures data[p] == Times(old(data[p]), v[k])
      {
        assert indptr[k + 1] <= indptr[numRows];
        assert data[p] == data[..][p] && old(data[p]) == start[p];
      }
    }

    /** v[i] /= sum of |row i|, then row i *= v[i]. */
    method NormalizeRow(i: nat, vi: real) returns (c: real)
      requires Valid() && i < numRows && AbsSum(Row(i)) != 0.0 && vi == 1.0
      modifies data
      ensures Reciprocal(c, old(AbsSum(Row(i))))
      ensures ScaledRow(old(data[..]), data[..], indptr[i], indptr[i + 1], c)
    {
      c := vi / AbsSum(Row(i));
      RecipOf(AbsSum(Row(i)));
      ScaleRow(i, c);
    }

    /** Multiplies the stored entries of row i by c. */
    method ScaleRow(i: nat, c: real)
      requires Valid() && i < numRows
      modifies data
      ensures forall p :: indptr[i] <= p < indptr[i + 1] ==> data[p] == Times(old(data[p]), c)
      ensures forall p :: 0 <= p < data.Length && !(indptr[i] <= p < indptr[i + 1]) ==> data[p] == old(data[p])
    {
      var p := indptr[i];
      assert indptr[i + 1] <= indptr[numRows];
      while p < indptr[i + 1]
        invariant indptr[i] <= p <= indptr[i + 1]
        invariant forall q :: indptr[i] <= q < p ==> data[q] == Times(old(data[q]), c)
        invariant forall q :: 0 <= q < data.Length && !(indptr[i] <= q < p) ==> data[q] == old(data[q])
      {
        data[p] := Times(data[p], c);
        p := p + 1;
      }
    }
  }

  /** cur is start with the entries lo..hi-1 multiplied by c. */
  ghost predicate ScaledRow(start: seq<real>, cur: seq<real>, lo: nat, hi: nat, c: real)
  {
    |cur| == |start|
    && forall p :: 0 <= p < |cur| ==> cur[p] == (if lo <= p < hi then Times(start[p], c) else start[p])
  }

  /** Rows 0..i-1 of cur are those of start multiplied by their entries of
      v, and the entries from row i on are those of start. */
  ghost predicate ScaledUpTo(start: seq<real>, cur: seq<real>, indptr: seq<nat>, v: seq<real>, i: nat)
  {
    |cur| == |start| && |v| == i && i < |indptr|
    && (forall k, p :: 0 <= k < i && indptr[k] <= p < indptr[k + 1] && p < |cur| ==> cur[p] == Times(start[p], v[k]))
    && (forall p :: indptr[i] <= p < |cur| ==> cur[p] == start[p])
  }

  lemma ScaledStep(start: seq<real>, mid: seq<real>, next: seq<real>, indptr: seq<nat>, v: seq<real>, i: nat, c: real)
    requires ScaledUpTo(start, mid, indptr, v, i) && i + 1 < |indptr|
    requires forall a, b :: 0 <= a <= b < |indptr| ==> indptr[a] <= indptr[b]
    requires ScaledRow(mid, next, indptr[i], indptr[i + 1], c)
    ensures ScaledUpTo(start, next, indptr, v + [c], i + 1)
  {
    var w := v + [c];
    forall k, p | 0 <= k < i + 1 && indptr[k] <= p < indptr[k + 1] && p < |next|
      ensures next[p] == Times(start[p], w[k])
    {
      if k < i {
        assert indptr[k + 1] <= indptr[i];
      }
    }
  }

  /** After scaling, every row's absolute values sum to one. */
  lemma ScaledRowsSumToOne(oldRow: seq<real>, newRow: seq<real>, c: real)
    requires Reciprocal(c, AbsSum(oldRow))
    requires |newRow| == |oldRow| && forall k :: 0 <= k < |oldRow| ==> newRow[k] == Times(oldRow[k], c)
    ensures AbsSum(newRow) == 1.0
  {
    AbsSumNonnegative(oldRow);
    assert c >= 0.0;
    AbsSumScale(oldRow, c, newRow);
  }

  lemma {:induction false} AbsSumNonnegative(s: seq<real>)
    ensures AbsSum(s) >= 0.0
  {
    if |s| > 0 {
      AbsSumNonnegative(s[..|s| - 1]);
    }
  }
}
