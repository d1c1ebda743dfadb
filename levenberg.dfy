/** OptimizationAlgorithmLevenberg of g2o/core/optimization_algorithm_levenberg.cpp:
    one call of solve runs damped trials until a step lowers the robust chi^2
    or the retry budget is spent. Each trial saves the estimate, solves the
    damped system, applies the increment, and either keeps the new estimate
    (shrinking lambda) or restores the saved one (growing lambda).

    Doubles are reals here. A value above the largest finite double stands
    for an overflow to infinity, and the gain ratio keeps IEEE's outcomes of
    a division by zero. */
module LevenbergModel {
  import opened SparseOptimizerModel

  /** std::numeric_limits<double>::max(). */
  const DoubleMax: real := 179769313486231570814527423731704356798070567525844996598917476803157260780028538760589558632766878171540458953514382464234321326889464182768467546703537516986049910576551282076245490090389328944075868508455133942304583236903222948165808559332123348274797826204144723168738177180919299881250404026184124858368.0

  /** g2o_isfinite: no overflow past the largest double. */
  predicate IsFinite(v: real)
  {
    -DoubleMax <= v <= DoubleMax
  }

  /** Bounds for the factor that shrinks lambda after a good step. */
  const GoodStepLowerScale: real := 1.0 / 3.0
  const GoodStepUpperScale: real := 2.0 / 3.0

  /** The constant added to the predicted gain "to make it non-zero". */
  const ScaleOffset: real := 0.001

  /** rho, the gain ratio: a quotient, or what IEEE division by zero gives
      (the denominator is then +0, the rounded sum of opposite values). */
  datatype Gain = Quotient(value: real) | PlusInfinity | MinusInfinity | NotANumber

  predicate Positive(g: Gain)
  {
    match g
    case Quotient(v) => v > 0.0
    case PlusInfinity => true
    case _ => false
  }

  predicate Negative(g: Gain)
  {
    match g
    case Quotient(v) => v < 0.0
    case MinusInfinity => true
    case _ => false
  }

  predicate IsZero(g: Gain)
  {
    g == Quotient(0.0)
  }

  /** num / den in IEEE arithmetic: its sign is the numerator's when the
      denominator is positive or zero, the opposite one when it is negative,
      and 0 / 0 is not a number. */
  function GainRatio(num: real, den: real): (g: Gain)
    ensures den >= 0.0 ==> (Positive(g) <==> num > 0.0) && (Negative(g) <==> num < 0.0)
    ensures den < 0.0 ==> (Positive(g) <==> num < 0.0) && (Negative(g) <==> num > 0.0)
    ensures IsZero(g) <==> den != 0.0 && num == 0.0
  {
    if den != 0.0 then
      QuotientSign(num, den);
      Quotient(num / den)
    else if num > 0.0 then PlusInfinity
    else if num < 0.0 then MinusInfinity
    else NotANumber
  }

  /** pow(v, n) for a natural exponent. */
  function Pow(v: real, n: nat): real
  {
    if n == 0 then 1.0 else v * Pow(v, n - 1)
  }

  /** The factor applied to lambda after a good step: 1 - (2 rho - 1)^3
      clamped to [1/3, 2/3]; an infinite rho gives -infinity before the
      clamp, hence the lower bound. */
  function GoodStepFactor(rho: Gain): (f: real)
    requires Positive(rho)
    ensures GoodStepLowerScale <= f <= GoodStepUpperScale
  {
    match rho
    case Quotient(v) =>
      var alpha := 1.0 - Pow(2.0 * v - 1.0, 3);
      var capped := if alpha < GoodStepUpperScale then alpha else GoodStepUpperScale;
      if GoodStepLowerScale < capped then capped else GoodStepLowerScale
    case PlusInfinity => GoodStepLowerScale
  }

  /** A better gain ratio never shrinks lambda less: the factor does not
      increase with rho, and an infinite rho gives the smallest factor. */
  lemma GoodStepFactorAntitone(r1: Gain, r2: Gain)
    requires Positive(r1) && Positive(r2)
    requires r1.Quotient? && r2.Quotient? ==> r1.value <= r2.value
    requires r1.PlusInfinity? ==> r2.PlusInfinity?
    ensures GoodStepFactor(r2) <= GoodStepFactor(r1)
  {
    if r1.Quotient? && r2.Quotient? {
      PowThreeMonotone(2.0 * r1.value - 1.0, 2.0 * r2.value - 1.0);
    }
  }

  /** computeScale: sum over j of x_j (lambda x_j + b_j), the gain the
      damped quadratic model predicts for the increment x. */
  function Scale(x: seq<real>, b: seq<real>, lambda: real): real
    requires |x| == |b|
  {
    if x == [] then 0.0 else x[0] * (lambda * x[0] + b[0]) + Scale(x[1..], b[1..], lambda)
  }

  function Dot(x: seq<real>, b: seq<real>): real
    requires |x| == |b|
  {
    if x == [] then 0.0 else x[0] * b[0] + Dot(x[1..], b[1..])
  }

  function SumSquares(x: seq<real>): (r: real)
    ensures 0.0 <= r
  {
    if x == [] then 0.0 else x[0] * x[0] + SumSquares(x[1..])
  }

  /** The predicted gain is lambda |x|^2 + x . b. */
  lemma {:induction false} ScaleSplits(x: seq<real>, b: seq<real>, lambda: real)
    requires |x| == |b|
    ensures Scale(x, b, lambda) == lambda * SumSquares(x) + Dot(x, b)
  {
    if x != [] {
      ScaleSplits(x[1..], b[1..], lambda);
      assert x[0] * (lambda * x[0] + b[0]) == lambda * (x[0] * x[0]) + x[0] * b[0];
      assert lambda * (x[0] * x[0]) + lambda * SumSquares(x[1..]) == lambda * SumSquares(x);
    }
  }

  /** With non-negative damping and an increment that does not point
      against b, the offset scale is positive. */
  lemma PredictedPositive(x: seq<real>, b: seq<real>, lambda: real)
    requires |x| == |b| && 0.0 <= lambda && 0.0 <= Dot(x, b)
    ensures 0.0 < Scale(x, b, lambda) + ScaleOffset
  {
    ScaleSplits(x, b, lambda);
    assert 0.0 <= lambda * SumSquares(x);
  }

  /** What one trial needs from its collaborators: the robust chi^2 of an
      estimate (computeActiveErrors then activeRobustChi2), the right-hand
      side b, the damped solve (setLambda then solve: a success flag and the
      increment), the estimate update (oplus), and the optimizer's terminate
      flag as read after q trials. */
  datatype System = System(
    chi: seq<real> -> real,
    b: seq<real>,
    solve: real -> Solution,
    oplus: (seq<real>, seq<real>) -> seq<real>,
    stop: nat -> bool)

  datatype Solution = Solution(ok: bool, dx: seq<real>)

  /** Every increment has the length of b (the solver's vectorSize). */
  ghost predicate Consistent(sys: System)
  {
    forall lambda :: |sys.solve(lambda).dx| == |sys.b|
  }

  /** The state the damping loop carries: lambda, nu, the current chi^2, the
      estimate, the last gain ratio and the trial count qmax. */
  datatype Damping = Damping(lambda: real, nu: real, chi: real, x: seq<real>, rho: Gain, q: nat)

  /** The chi^2 after trying the increment for lambda: the maximum double
      when the solve fails. */
  function TrialChi(sys: System, s: Damping): real
  {
    var sol := sys.solve(s.lambda);
    if sol.ok then sys.chi(sys.oplus(s.x, sol.dx)) else DoubleMax
  }

  /** The offset predicted gain of the increment for lambda. */
  function Predicted(sys: System, s: Damping): real
    requires Consistent(sys)
  {
    Scale(sys.solve(s.lambda).dx, sys.b, s.lambda) + ScaleOffset
  }

  function TrialGain(sys: System, s: Damping): Gain
    requires Consistent(sys)
  {
    GainRatio(s.chi - TrialChi(sys, s), Predicted(sys, s))
  }

  /** The step is kept when rho > 0 and the new chi^2 is finite. */
  predicate Accepted(sys: System, s: Damping)
    requires Consistent(sys)
  {
    Positive(TrialGain(sys, s)) && IsFinite(TrialChi(sys, s))
  }

  /** One pass of the do-while loop of solve. A kept step shrinks lambda by
      the good-step factor, resets nu to 2 and moves the estimate; a
      rejected one multiplies lambda by nu, doubles nu and restores the
      estimate. The count goes up unless a rejection made lambda infinite
      (the break). */
  function Trial(sys: System, s: Damping): (r: Damping)
    requires Consistent(sys)
  {
    var rho := TrialGain(sys, s);
    if Accepted(sys, s) then
      Damping(s.lambda * GoodStepFactor(rho), 2.0, TrialChi(sys, s),
              sys.oplus(s.x, sys.solve(s.lambda).dx), rho, s.q + 1)
    else
      var lambda := s.lambda * s.nu;
      Damping(lambda, s.nu * 2.0, s.chi, s.x, rho, if IsFinite(lambda) then s.q + 1 else s.q)
  }

  /** The fields of a trial that keeps its step. */
  lemma TrialKeeps(sys: System, s: Damping)
    requires Consistent(sys) && Accepted(sys, s)
    ensures Trial(sys, s).lambda == s.lambda * GoodStepFactor(TrialGain(sys, s)) && Trial(sys, s).nu == 2.0
    ensures Trial(sys, s).chi == TrialChi(sys, s) && Trial(sys, s).x == sys.oplus(s.x, sys.solve(s.lambda).dx)
    ensures Trial(sys, s).rho == TrialGain(sys, s) && Trial(sys, s).q == s.q + 1
  {
  }

  /** The fields of a trial that rejects its step. */
  lemma TrialRestores(sys: System, s: Damping)
    requires Consistent(sys) && !Accepted(sys, s)
    ensures Trial(sys, s).lambda == s.lambda * s.nu && Trial(sys, s).nu == s.nu * 2.0
    ensures Trial(sys, s).chi == s.chi && Trial(sys, s).x == s.x && Trial(sys, s).rho == TrialGain(sys, s)
    ensures Trial(sys, s).q == if IsFinite(s.lambda * s.nu) then s.q + 1 else s.q
  {
  }

  /** The loop goes on after a trial while rho < 0, fewer than maxTrials
      trials were made and the optimizer was not told to stop; a finite
      lambda tells that the trial did not break out. */
  predicate Continues(sys: System, maxTrials: int, t: Damping)
  {
    Negative(t.rho) && IsFinite(t.lambda) && t.q < maxTrials && !sys.stop(t.q)
  }

  /** The whole loop: trials until one of them stops it. */
  function Trials(sys: System, maxTrials: int, s: Damping): (r: Damping)
    requires Consistent(sys)
    ensures !Continues(sys, maxTrials, r)
    decreases if s.q < maxTrials then maxTrials - s.q else 0
  {
    var t := Trial(sys, s);
    if Continues(sys, maxTrials, t) then Trials(sys, maxTrials, t) else t
  }

  /** What solve returns after the loop: kTerminate when the count reached
      the maximum exactly, rho is 0, or lambda is not finite; kOk otherwise. */
  function LoopResult(r: Damping, maxTrials: int): SolverResult
  {
    if r.q == maxTrials || IsZero(r.rho) || !IsFinite(r.lambda) then SolverTerminate else SolverOk
  }

  /** A trial that keeps its step shrinks a positive lambda to between a
      third and two thirds of it and resets nu; a rejected one multiplies
      lambda by nu, doubles nu and keeps the estimate and chi^2. Positive
      lambda and nu >= 2 survive either way. */
  lemma TrialDamping(sys: System, s: Damping)
    requires Consistent(sys) && 0.0 < s.lambda && 2.0 <= s.nu
    ensures Accepted(sys, s) ==>
      GoodStepLowerScale * s.lambda <= Trial(sys, s).lambda <= GoodStepUpperScale * s.lambda &&
      Trial(sys, s).nu == 2.0 && Trial(sys, s).chi == TrialChi(sys, s)
    ensures !Accepted(sys, s) ==>
      Trial(sys, s).lambda == s.lambda * s.nu && 2.0 * s.lambda <= Trial(sys, s).lambda &&
      Trial(sys, s).nu == 2.0 * s.nu && Trial(sys, s).x == s.x && Trial(sys, s).chi == s.chi
    ensures 0.0 < Trial(sys, s).lambda && 2.0 <= Trial(sys, s).nu
  {
    if Accepted(sys, s) {
      KeptDamping(sys, s);
    } else {
      RejectedDamping(sys, s);
    }
  }

  lemma KeptDamping(sys: System, s: Damping)
    requires Consistent(sys) && 0.0 < s.lambda && Accepted(sys, s)
    ensures GoodStepLowerScale * s.lambda <= Trial(sys, s).lambda <= GoodStepUpperScale * s.lambda
    ensures 0.0 < Trial(sys, s).lambda && Trial(sys, s).nu == 2.0 && Trial(sys, s).chi == TrialChi(sys, s)
  {
    TrialKeeps(sys, s);
    var f := GoodStepFactor(TrialGain(sys, s));
    MulBetween(s.lambda, f, GoodStepLowerScale, GoodStepUpperScale);
  }

  lemma RejectedDamping(sys: System, s: Damping)
    requires Consistent(sys) && 0.0 < s.lambda && 2.0 <= s.nu && !Accepted(sys, s)
    ensures Trial(sys, s).lambda == s.lambda * s.nu && 2.0 * s.lambda <= Trial(sys, s).lambda
    ensures Trial(sys, s).nu == 2.0 * s.nu && Trial(sys, s).x == s.x && Trial(sys, s).chi == s.chi
    ensures 0.0 < Trial(sys, s).lambda && 2.0 <= Trial(sys, s).nu
  {
    TrialRestores(sys, s);
    MulBetween(s.lambda, s.nu, 2.0, s.nu);
  }

  /** A kept step with a positive predicted gain lowers chi^2. */
  lemma AcceptedImproves(sys: System, s: Damping)
    requires Consistent(sys) && Accepted(sys, s) && 0.0 < Predicted(sys, s)
    ensures Trial(sys, s).chi < s.chi
  {
  }

  /** A failed solve is rejected whenever the predicted gain is positive:
      its chi^2 is the maximum double, so rho is not positive. */
  lemma FailedSolveRejected(sys: System, s: Damping)
    requires Consistent(sys) && !sys.solve(s.lambda).ok && s.chi <= DoubleMax && 0.0 < Predicted(sys, s)
    ensures !Accepted(sys, s) && Trial(sys, s).x == s.x
  {
  }

  /** The trial count: at least one trial is counted unless the first one
      broke out, and the count never passes the maximum when that is at
      least 1. */
  lemma {:induction false} TrialsCount(sys: System, maxTrials: int, s: Damping)
    requires Consistent(sys)
    ensures s.q <= Trials(sys, maxTrials, s).q <= if s.q < maxTrials then maxTrials else s.q + 1
    decreases if s.q < maxTrials then maxTrials - s.q else 0
  {
    var t := Trial(sys, s);
    if Continues(sys, maxTrials, t) {
      TrialsCount(sys, maxTrials, t);
    }
  }

  /** Positive lambda and nu >= 2 hold after every loop. */
  lemma {:induction false} TrialsDamping(sys: System, maxTrials: int, s: Damping)
    requires Consistent(sys) && 0.0 < s.lambda && 2.0 <= s.nu
    ensures 0.0 < Trials(sys, maxTrials, s).lambda && 2.0 <= Trials(sys, maxTrials, s).nu
    decreases if s.q < maxTrials then maxTrials - s.q else 0
  {
    var t := Trial(sys, s);
    TrialDamping(sys, s);
    if Continues(sys, maxTrials, t) {
      TrialsDamping(sys, maxTrials, t);
    }
  }

  /** The predicted gain is positive for every positive lambda. */
  ghost predicate PredictsGain(sys: System)
    requires Consistent(sys)
  {
    forall lambda :: 0.0 < lambda ==> 0.0 < Scale(sys.solve(lambda).dx, sys.b, lambda) + ScaleOffset
  }

  /** When the model always predicts a gain, solve never raises chi^2: only
      improving steps are kept. */
  lemma {:induction false} TrialsNeverWorsen(sys: System, maxTrials: int, s: Damping)
    requires Consistent(sys) && PredictsGain(sys) && 0.0 < s.lambda && 2.0 <= s.nu
    ensures Trials(sys, maxTrials, s).chi <= s.chi
    decreases if s.q < maxTrials then maxTrials - s.q else 0
  {
    var t := Trial(sys, s);
    TrialDamping(sys, s);
    assert 0.0 < Predicted(sys, s);
    if Accepted(sys, s) {
      AcceptedImproves(sys, s);
    }
    if Continues(sys, maxTrials, t) {
      TrialsNeverWorsen(sys, maxTrials, t);
    }
  }

  /** kOk after a loop with a budget of at least one trial means the last
      trial did not make things worse (rho is not negative) or the optimizer
      was told to stop. */
  lemma OkMeansNoWorseStep(sys: System, maxTrials: int, s: Damping)
    requires Consistent(sys) && 1 <= maxTrials && s.q == 0
    requires LoopResult(Trials(sys, maxTrials, s), maxTrials) == SolverOk
    ensures !Negative(Trials(sys, maxTrials, s).rho) || sys.stop(Trials(sys, maxTrials, s).q)
  {
    TrialsCount(sys, maxTrials, s);
  }

  /** computeLambdaInit's loop: the largest absolute diagonal entry of the
      Hessian blocks of the vertices in ivMap, starting from 0. */
  function MaxAbs(diagonals: seq<seq<real>>): (m: real)
    ensures 0.0 <= m
    ensures forall i, j :: 0 <= i < |diagonals| && 0 <= j < |diagonals[i]| ==> Abs(diagonals[i][j]) <= m
    ensures m == 0.0 || exists i, j :: 0 <= i < |diagonals| && 0 <= j < |diagonals[i]| && Abs(diagonals[i][j]) == m
  {
    if diagonals == [] then 0.0
    else
      var n := |diagonals| - 1;
      var before := MaxAbs(diagonals[..n]);
      var here := MaxAbsOf(diagonals[n]);
      assert forall i :: 0 <= i < n ==> diagonals[i] == diagonals[..n][i];
      if here < before then before else here
  }

  /** cwiseAbs().maxCoeff() of one diagonal, and 0 for none. */
  function MaxAbsOf(d: seq<real>): (m: real)
    ensures 0.0 <= m
    ensures forall j :: 0 <= j < |d| ==> Abs(d[j]) <= m
    ensures m == 0.0 || exists j :: 0 <= j < |d| && Abs(d[j]) == m
  {
    if d == [] then 0.0
    else
      var rest := MaxAbsOf(d[1..]);
      assert forall j :: 1 <= j < |d| ==> d[j] == d[1..][j - 1];
      if Abs(d[0]) < rest then rest else Abs(d[0])
  }

  function Abs(v: real): real
  {
    if v < 0.0 then -v else v
  }

  /** The estimates of the active vertices, as one vector, with the stack of
      saved copies that push, pop and discardTop work on. */
  class Estimates {
    var current: seq<real>
    var stack: seq<seq<real>>

    constructor (x: seq<real>)
      ensures current == x && stack == []
    {
      current := x;
      stack := [];
    }

    /** push: save a copy of the estimate. */
    method Push()
      modifies this
      ensures current == old(current) && stack == old(stack) + [old(current)]
    {
      stack := stack + [current];
    }

    /** pop: restore the last saved copy and drop it. */
    method Pop()
      requires stack != []
      modifies this
      ensures current == old(stack)[|old(stack)| - 1] && stack == old(stack)[..|old(stack)| - 1]
    {
      current := stack[|stack| - 1];
      stack := stack[..|stack| - 1];
    }

    /** discardTop: drop the last saved copy, keeping the estimate. */
    method DiscardTop()
      requires stack != []
      modifies this
      ensures current == old(current) && stack == old(stack)[..|old(stack)| - 1]
    {
      stack := stack[..|stack| - 1];
    }

    /** update(x): apply the increment. */
    method Update(oplus: (seq<real>, seq<real>) -> seq<real>, dx: seq<real>)
      modifies this
      ensures current == oplus(old(current), dx) && stack == old(stack)
    {
      current := oplus(current, dx);
    }
  }

  class Levenberg {
    var currentLambda: real
    var ni: real
    var levenbergIterations: int
    var maxTrialsAfterFailure: int
    var userLambdaInit: real
    const tau: real := 0.00001

    /** The defaults: lambda -1 (not yet computed), nu 2, no iterations, a
        budget of 10 trials after a failure, and no user lambda. */
    constructor ()
      ensures currentLambda == -1.0 && ni == 2.0 && levenbergIterations == 0
      ensures maxTrialsAfterFailure == 10 && userLambdaInit == 0.0
    {
      currentLambda := -1.0;
      ni := 2.0;
      levenbergIterations := 0;
      maxTrialsAfterFailure := 10;
      userLambdaInit := 0.0;
    }

    function CurrentLambda(): real
      reads this
    {
      currentLambda
    }

    function MaxTrialsAfterFailure(): int
      reads this
    {
      maxTrialsAfterFailure
    }

    function UserLambdaInit(): real
      reads this
    {
      userLambdaInit
    }

    function LevenbergIteration(): int
      reads this
    {
      levenbergIterations
    }

    method SetMaxTrialsAfterFailure(maxTrials: int)
      modifies this
      ensures MaxTrialsAfterFailure() == maxTrials
      ensures currentLambda == old(currentLambda) && ni == old(ni) && userLambdaInit == old(userLambdaInit)
      ensures levenbergIterations == old(levenbergIterations)
    {
      maxTrialsAfterFailure := maxTrials;
    }

    method SetUserLambdaInit(lambda: real)
      modifies this
      ensures UserLambdaInit() == lambda
      ensures currentLambda == old(currentLambda) && ni == old(ni) && maxTrialsAfterFailure == old(maxTrialsAfterFailure)
      ensures levenbergIterations == old(levenbergIterations)
    {
      userLambdaInit := lambda;
    }

    /** computeLambdaInit: the user's lambda when positive, otherwise tau
        times the largest absolute Hessian diagonal entry. */
    method ComputeLambdaInit(diagonals: seq<seq<real>>) returns (lambda: real)
      ensures userLambdaInit > 0.0 ==> lambda == userLambdaInit
      ensures userLambdaInit <= 0.0 ==> lambda == tau * MaxAbs(diagonals)
    {
      if userLambdaInit > 0.0 {
        return userLambdaInit;
      }
      var maxDiagonal := 0.0;
      for i := 0 to |diagonals|
        invariant maxDiagonal == MaxAbs(diagonals[..i])
      {
        var m := MaxAbsOf(diagonals[i]);
        MaxAbsSnoc(diagonals, i);
        maxDiagonal := if m < maxDiagonal then maxDiagonal else m;
      }
      assert diagonals[..|diagonals|] == diagonals;
      lambda := tau * maxDiagonal;
    }

    /** The do-while loop of solve, from the state s0 it sets up. */
    method DampingLoop(sys: System, est: Estimates, s0: Damping) returns (r: Damping)
      requires Consistent(sys) && s0.q == 0 && s0.x == est.current
      modifies this, est
      ensures r == Trials(sys, maxTrialsAfterFailure, s0)
      ensures est.current == r.x && est.stack == old(est.stack)
      ensures currentLambda == r.lambda && ni == r.nu && levenbergIterations == r.q
      ensures maxTrialsAfterFailure == old(maxTrialsAfterFailure) && userLambdaInit == old(userLambdaInit)
    {
      var maxTrials := maxTrialsAfterFailure;
      currentLambda, ni, levenbergIterations := s0.lambda, s0.nu, 0;
      var currentChi := s0.chi;
      var rho := s0.rho;
      ghost var final := Trials(sys, maxTrials, s0);
      var go := true;
      while go
        invariant est.stack == old(est.stack) && maxTrialsAfterFailure == maxTrials
        invariant userLambdaInit == old(userLambdaInit)
        invariant 0 <= levenbergIterations
        invariant go ==> levenbergIterations == 0 || levenbergIterations < maxTrials
        invariant go ==> Trials(sys, maxTrials, Damping(currentLambda, ni, currentChi, est.current, rho, levenbergIterations)) == final
        invariant !go ==> Damping(currentLambda, ni, currentChi, est.current, rho, levenbergIterations) == final
        decreases if go then (if levenbergIterations < maxTrials then maxTrials - levenbergIterations else 0) + 1 else 0
      {
        var s := Damping(currentLambda, ni, currentChi, est.current, rho, levenbergIterations);
        est.Push();
        var sol := sys.solve(currentLambda);
        est.Update(sys.oplus, sol.dx);
        var t, kept := TrialStep(sys, s, sol, est.current);
        if kept {
          est.DiscardTop();
        } else {
          est.Pop();
        }
        currentLambda, ni, currentChi, rho, levenbergIterations := t.lambda, t.nu, t.chi, t.rho, t.q;
        var broke := !kept && !IsFinite(currentLambda);
        go := !broke && Negative(rho) && levenbergIterations < maxTrials && !sys.stop(levenbergIterations);
      }
      r := Damping(currentLambda, ni, currentChi, est.current, rho, levenbergIterations);
    }

    /** solve(iteration, online): at iteration 0 outside online mode a
        failing buildStructure fails the call before anything changes.
        Otherwise chi^2 is evaluated, iteration 0 initialises lambda and
        nu = 2, the damping loop runs, and the result is kTerminate or kOk
        by the loop's end state. Every trial's push is matched by a pop or a
        discardTop, so the stack of saved estimates is as before. */
    method Solve(iteration: int, online: bool, structureOk: bool, sys: System, diagonals: seq<seq<real>>, est: Estimates)
      returns (result: SolverResult)
      requires Consistent(sys)
      modifies this, est
      ensures est.stack == old(est.stack)
      ensures maxTrialsAfterFailure == old(maxTrialsAfterFailure) && userLambdaInit == old(userLambdaInit)
      ensures iteration == 0 && !online && !structureOk ==>
        result == SolverFail && est.current == old(est.current) &&
        currentLambda == old(currentLambda) && ni == old(ni) && levenbergIterations == old(levenbergIterations)
      ensures !(iteration == 0 && !online && !structureOk) ==>
        Ran(sys, maxTrialsAfterFailure,
            Start(iteration, old(currentLambda), old(ni), old(userLambdaInit), tau, diagonals, sys, old(est.current)),
            result, est.current, currentLambda, ni, levenbergIterations)
    {
      if iteration == 0 && !online && !structureOk {
        return SolverFail;
      }
      ghost var s0 := Start(iteration, currentLambda, ni, userLambdaInit, tau, diagonals, sys, est.current);
      var currentChi := sys.chi(est.current);
      if iteration == 0 {
        currentLambda := ComputeLambdaInit(diagonals);
        ni := 2.0;
      }
      var start := Damping(currentLambda, ni, currentChi, est.current, Quotient(0.0), 0);
      assert start == s0;
      var r := DampingLoop(sys, est, start);
      result := LoopResult(r, maxTrialsAfterFailure);
    }
  }

  /** The state the loop of solve starts from: chi^2 of the current
      estimate, and at iteration 0 the initial lambda with nu = 2. */
  function Start(iteration: int, lambda: real, nu: real, userLambdaInit: real, tau: real,
                 diagonals: seq<seq<real>>, sys: System, x: seq<real>): Damping
  {
    var lambda0 := if iteration == 0 then InitialLambda(userLambdaInit, tau, diagonals) else lambda;
    var nu0 := if iteration == 0 then 2.0 else nu;
    Damping(lambda0, nu0, sys.chi(x), x, Quotient(0.0), 0)
  }

  /** solve's outcome from s0: the result by the loop's end state, and the
      estimate, lambda, nu and count that the loop leaves. */
  ghost predicate Ran(sys: System, maxTrials: int, s0: Damping, result: SolverResult,
                      x: seq<real>, lambda: real, nu: real, q: int)
    requires Consistent(sys)
  {
    var r := Trials(sys, maxTrials, s0);
    result == LoopResult(r, maxTrials) && x == r.x && lambda == r.lambda && nu == r.nu && q == r.q
  }

  /** The arithmetic of one pass of the loop of solve, given the solution
      for the current lambda and the estimate it moved to: the chi^2 there
      (the maximum double when the solve failed), the gain ratio against the
      offset predicted gain, and the new lambda, nu and count. */
  method TrialStep(sys: System, s: Damping, sol: Solution, moved: seq<real>) returns (t: Damping, kept: bool)
    requires Consistent(sys) && sol == sys.solve(s.lambda) && moved == sys.oplus(s.x, sol.dx)
    ensures t == Trial(sys, s) && kept == Accepted(sys, s)
  {
    var tempChi := if sol.ok then sys.chi(moved) else DoubleMax;
    var scale := ComputeScale(sol.dx, s.lambda, sys.b);
    scale := scale + ScaleOffset;
    var rho := GainRatio(s.chi - tempChi, scale);
    if Positive(rho) && IsFinite(tempChi) {
      t := Damping(s.lambda * GoodStepFactor(rho), 2.0, tempChi, moved, rho, s.q + 1);
      kept := true;
    } else {
      var lambda := s.lambda * s.nu;
      t := Damping(lambda, s.nu * 2.0, s.chi, s.x, rho, if IsFinite(lambda) then s.q + 1 else s.q);
      kept := false;
    }
  }

  /** The lambda computeLambdaInit chooses. */
  function InitialLambda(userLambdaInit: real, tau: real, diagonals: seq<seq<real>>): real
  {
    if userLambdaInit > 0.0 then userLambdaInit else tau * MaxAbs(diagonals)
  }

  /** Extending the diagonals by one takes the larger of the two maxima. */
  lemma MaxAbsSnoc(diagonals: seq<seq<real>>, i: int)
    requires 0 <= i < |diagonals|
    ensures MaxAbs(diagonals[..i + 1]) ==
      (if MaxAbsOf(diagonals[i]) < MaxAbs(diagonals[..i]) then MaxAbs(diagonals[..i]) else MaxAbsOf(diagonals[i]))
  {
    assert diagonals[..i + 1][..i] == diagonals[..i];
  }

  /** computeScale: the loop over the solver's vector. */
  method ComputeScale(x: seq<real>, lambda: real, b: seq<real>) returns (scale: real)
    requires |x| == |b|
    ensures scale == Scale(x, b, lambda)
  {
    scale := 0.0;
    for j := 0 to |x|
      invariant scale + Scale(x[j..], b[j..], lambda) == Scale(x, b, lambda)
    {
      assert x[j..][1..] == x[j + 1..] && b[j..][1..] == b[j + 1..];
      scale := scale + x[j] * (lambda * x[j] + b[j]);
    }
  }

  /* ---------------------------------------------------------------------
     Real-arithmetic support: signs of products and quotients, bounds on
     products, monotonicity of cubes. These state nothing about g2o; the
     model's proofs call them.
     --------------------------------------------------------------------- */

  /** The sign of a quotient. */
  lemma QuotientSign(num: real, den: real)
    requires den != 0.0
    ensures den > 0.0 ==> (num / den > 0.0 <==> num > 0.0) && (num / den < 0.0 <==> num < 0.0)
    ensures den < 0.0 ==> (num / den > 0.0 <==> num < 0.0) && (num / den < 0.0 <==> num > 0.0)
    ensures num / den == 0.0 <==> num == 0.0
  {
    var q := num / den;
    assert q * den == num;
    if den > 0.0 {
      if q > 0.0 { MulSign(q, den); }
      if q < 0.0 { MulSign(-q, den); }
    } else {
      if q > 0.0 { MulSign(q, -den); }
      if q < 0.0 { MulSign(-q, -den); }
    }
  }

  lemma MulNonNeg(a: real, b: real)
    requires 0.0 <= a && 0.0 <= b
    ensures 0.0 <= a * b
  {
  }

  lemma MulSign(a: real, b: real)
    requires 0.0 < a && 0.0 < b
    ensures 0.0 < a * b && (-a) * b == -(a * b) && a * (-b) == -(a * b) && (-a) * (-b) == a * b
  {
  }

  lemma PowThree(v: real)
    ensures Pow(v, 3) == v * v * v
  {
    assert Pow(v, 1) == v;
    assert Pow(v, 2) == v * v;
  }

  lemma PowThreeMonotone(a: real, b: real)
    requires a <= b
    ensures Pow(a, 3) <= Pow(b, 3)
  {
    PowThree(a);
    PowThree(b);
    CubeDifference(a, b);
    SquareSumNonNegative(a, b);
    MulNonNeg(b - a, a * a + a * b + b * b);
  }

  lemma CubeDifference(a: real, b: real)
    ensures b * b * b - a * a * a == (b - a) * (a * a + a * b + b * b)
  {
  }

  lemma SquareSumNonNegative(a: real, b: real)
    ensures 0.0 <= a * a + a * b + b * b
  {
    var c := a + b / 2.0;
    assert c * c == a * a + a * b + (b * b) / 4.0;
    assert 0.0 <= c * c && 0.0 <= b * b;
  }

  lemma MulBetween(a: real, f: real, lo: real, hi: real)
    requires 0.0 < a && 0.0 < lo <= f <= hi
    ensures lo * a <= a * f <= hi * a && 0.0 < a * f
  {
  }
}
