/** The robust kernels of g2o/core/robust_kernel_impl.cpp. Each maps a
    squared error e to the triple (rho(e), rho'(e), rho''(e)) that the
    optimizer uses to down-weight outliers; delta is the kernel width (phi
    for DCS). The transcendental functions of <cmath> are a parameter,
    constrained only by the laws the properties need. */
module RobustKernels {
  import opened Wrappers

  /* ---------------------------------------------------------------------
     Real-arithmetic support: signs, products, quotients and cubes, each
     proved on its own. These state nothing about g2o; the kernel proofs
     call them.
     --------------------------------------------------------------------- */

  lemma SquareSign(a: real, sq: real)
    requires sq == a * a
    ensures 0.0 <= sq && (a != 0.0 ==> 0.0 < sq)
  {
    calc { 0.0; <= a * a; == sq; }
    if a != 0.0 {
      calc { 0.0; < a * a; == sq; }
    }
  }

  lemma SquareMonotone(a: real, b: real)
    requires 0.0 <= a <= b
    ensures a * a <= b * b
  {
  }

  lemma SquareAtMost(a: real, b: real)
    ensures 0.0 <= a <= b ==> a * a <= b * b
  {
    if 0.0 <= a <= b {
      SquareMonotone(a, b);
    }
  }

  lemma NonZeroRoot(a: real)
    requires a * a != 0.0
    ensures a != 0.0
  {
  }

  lemma ProductZero(a: real, b: real)
    requires a * b == 0.0
    ensures a == 0.0 || b == 0.0
  {
  }

  lemma MulNonNeg(a: real, b: real)
    requires 0.0 <= a && 0.0 <= b
    ensures 0.0 <= a * b
  {
  }

  lemma MulPositive(a: real, b: real)
    requires 0.0 < a && 0.0 < b
    ensures 0.0 < a * b
  {
  }

  /** A factor in [0, 1] does not increase a non-negative number. */
  lemma MulAtMost(a: real, b: real)
    requires 0.0 <= a <= 1.0 && 0.0 <= b
    ensures 0.0 <= a * b <= b && 0.0 <= b * a <= b
  {
  }

  lemma MulAtLeast(q: real, b: real)
    requires 0.0 < b
    ensures 1.0 <= q ==> b <= q * b
  {
  }

  lemma ReciprocalUnit(a: real)
    requires 1.0 <= a
    ensures 0.0 < 1.0 / a <= 1.0
  {
  }

  lemma DivScale(d: real, e: real)
    requires d != 0.0
    ensures 1.0 / d * e * d == e
  {
  }

  lemma ReciprocalPositive(a: real)
    requires 0.0 < a
    ensures 0.0 < 1.0 / a
  {
  }

  lemma DivBelowOne(a: real, b: real)
    requires 0.0 < a < b
    ensures 0.0 < a / b < 1.0
  {
    var q := a / b;
    calc { q * b; == a; < b; }
    MulAtLeast(q, b);
  }

  lemma DivAtMostOne(a: real, b: real)
    requires 0.0 <= a <= b && 0.0 < b
    ensures 0.0 <= a / b <= 1.0
  {
  }

  lemma DivAtLeastOne(a: real, b: real)
    requires 0.0 < b <= a
    ensures 1.0 <= a / b
  {
  }

  lemma CubeNonZero(s: real)
    requires s != 0.0
    ensures s * s * s != 0.0 && s * s * s * s != 0.0
  {
  }

  lemma CubePositive(s: real)
    requires 0.0 < s
    ensures 0.0 < s * s * s
  {
  }

  lemma CurvatureNegative(a: real, b: real, c: real)
    requires 0.0 < a && 0.0 < b && 0.0 < c
    ensures -0.5 * a * b / c < 0.0
  {
  }

  lemma NegDiv(a: real, b: real)
    requires 0.0 < a && 0.0 < b
    ensures -0.5 * a / b < 0.0 && -a / b < 0.0 && -0.5 / b < 0.0
  {
  }

  lemma MulMonotone(k: real, a: real, b: real)
    requires 0.0 <= k && a <= b
    ensures k * a <= k * b
  {
  }

  lemma DivNonNeg(a: real, b: real)
    requires 0.0 <= a && 0.0 < b
    ensures 0.0 <= a / b && (0.0 < a ==> 0.0 < a / b)
  {
  }

  lemma CubeBounds(b: real)
    requires 0.0 <= b <= 1.0
    ensures 0.0 <= b * b <= 1.0 && 0.0 <= b * b * b <= 1.0
  {
    MulAtMost(b, b);
    MulAtMost(b * b, b);
  }

  lemma SquareStrict(a: real, b: real)
    ensures 0.0 <= a < b ==> a * a < b * b
  {
    if 0.0 <= a < b {
      MulMonotone(a, a, b);
      MulPositive(b, b - a);
      calc { a * a; <= a * b; < a * b + b * (b - a); == b * b; }
    }
  }

  lemma NegativeQuotient(a: real, b: real)
    requires a < 0.0 && 0.0 < b
    ensures a / b < 0.0
  {
  }

  /* ---------------------------------------------------------------------
     Transcendental functions and extended reals
     --------------------------------------------------------------------- */

  /** sqrt, log, log1p and exp. */
  datatype Math = Math(sqrt: real -> real, log: real -> real, log1p: real -> real, exp: real -> real)

  /** The laws assumed of the transcendental functions: sqrt is the
      non-negative square root, log 1 = log1p 0 = 0, exp 0 = 1 and exp is
      positive and at most 1 on the non-positive reals. */
  ghost predicate Lawful(m: Math)
  {
    (forall x :: 0.0 <= x ==> 0.0 <= m.sqrt(x) && m.sqrt(x) * m.sqrt(x) == x) &&
    m.log(1.0) == 0.0 && m.log1p(0.0) == 0.0 && m.exp(0.0) == 1.0 &&
    (forall x :: 0.0 < m.exp(x)) &&
    (forall x :: x <= 0.0 ==> m.exp(x) <= 1.0)
  }

  lemma SqrtPositive(m: Math, x: real)
    requires Lawful(m) && 0.0 < x
    ensures 0.0 < m.sqrt(x)
  {
    var s := m.sqrt(x);
    assert 0.0 <= s;
    calc { s * s; == x; != 0.0; }
    NonZeroRoot(s);
  }

  /** A non-negative y whose square is x is sqrt(x). */
  lemma SqrtUnique(m: Math, x: real, y: real)
    requires Lawful(m) && 0.0 <= y && y * y == x
    ensures m.sqrt(x) == y
  {
    var s := m.sqrt(x);
    assert 0.0 <= s;
    calc { (s - y) * (s + y); == s * s - y * y; == x - x; == 0.0; }
    ProductZero(s - y, s + y);
  }

  /** sqrt(x) <= d gives x <= d^2. */
  lemma SqrtAtMost(m: Math, x: real, d: real)
    requires Lawful(m) && 0.0 <= x
    ensures m.sqrt(x) <= d ==> x <= d * d
  {
    var s := m.sqrt(x);
    if s <= d {
      assert 0.0 <= s;
      SquareMonotone(s, d);
      calc { x; == s * s; <= d * d; }
    }
  }

  /** x > d^2 (d >= 0) gives sqrt(x) > d. */
  lemma SqrtAbove(m: Math, x: real, d: real)
    requires Lawful(m) && 0.0 <= d && d * d < x
    ensures d < m.sqrt(x)
  {
    SqrtAtMost(m, x, d);
  }

  /** x >= 1 gives sqrt(x) >= 1. */
  lemma SqrtAtLeastOne(m: Math, x: real)
    requires Lawful(m) && 1.0 <= x
    ensures 1.0 <= m.sqrt(x)
  {
    if x == 1.0 {
      SqrtUnique(m, 1.0, 1.0);
    } else {
      SqrtAbove(m, x, 1.0);
    }
  }

  /** x <= d^2 (d >= 0) gives sqrt(x) <= d. */
  lemma SqrtBelow(m: Math, x: real, d: real)
    requires Lawful(m) && 0.0 <= d && 0.0 <= x <= d * d
    ensures m.sqrt(x) <= d
  {
    var s := m.sqrt(x);
    SquareStrict(d, s);
    assert 0.0 <= s && s * s == x;
  }

  /** d^2, named so that its sign is known wherever it appears. */
  function Square(d: real): (r: real)
    ensures 0.0 <= r && (d != 0.0 ==> 0.0 < r)
  {
    SquareSign(d, d * d);
    d * d
  }

  /** A real or minus infinity: the second derivative of the Fair kernel at
      e = 0 divides by zero. */
  datatype Ext = Finite(x: real) | NegInfinity

  /** k * c for k > 0. */
  function ScaleExt(k: real, c: Ext): (r: Ext)
    requires 0.0 < k
    ensures r.NegInfinity? <==> c.NegInfinity?
  {
    match c
    case Finite(x) => Finite(k * x)
    case NegInfinity => NegInfinity
  }

  /** rho[0], rho[1] and rho[2]. */
  datatype Rho = Rho(value: real, first: real, second: Ext)

  /** The squared error itself: (e, 1, 0). */
  function Plain(e: real): Rho
  {
    Rho(e, 1.0, Finite(0.0))
  }

  /* ---------------------------------------------------------------------
     The kernels
     --------------------------------------------------------------------- */

  /** The outlier branch of Huber: rho = 2 delta sqrt(e) - delta^2,
      rho' = delta / sqrt(e), rho'' = -rho' / (2 e). */
  function HuberOutlier(m: Math, delta: real, e: real): Rho
    requires Lawful(m) && 0.0 < e
  {
    var dsqr := delta * delta;
    var sqrte := m.sqrt(e);
    SqrtPositive(m, e);
    var first := delta / sqrte;
    Rho(2.0 * sqrte * delta - dsqr, first, Finite(-0.5 * first / e))
  }

  /** Huber: quadratic up to delta^2, linear in sqrt(e) beyond. */
  function HuberRobustify(m: Math, delta: real, e: real): Rho
    requires Lawful(m)
  {
    var dsqr := delta * delta;
    if e <= dsqr then Plain(e)
    else
      SquareSign(delta, dsqr);
      HuberOutlier(m, delta, e)
  }

  /** Pseudo-Huber: 2 delta^2 (sqrt(1 + e / delta^2) - 1). */
  function PseudoHuberRobustify(m: Math, delta: real, e: real): Rho
    requires Lawful(m) && delta != 0.0 && 0.0 <= e
  {
    var dsqr := delta * delta;
    SquareSign(delta, dsqr);
    var dsqrReci := 1.0 / dsqr;
    var aux1 := dsqrReci * e + 1.0;
    ReciprocalPositive(dsqr);
    MulNonNeg(dsqrReci, e);
    var aux2 := m.sqrt(aux1);
    SqrtAtLeastOne(m, aux1);
    var first := 1.0 / aux2;
    Rho(2.0 * dsqr * (aux2 - 1.0), first, Finite(-0.5 * dsqrReci * first / aux1))
  }

  /** Cauchy: delta^2 log(1 + e / delta^2). */
  function CauchyRobustify(m: Math, delta: real, e: real): Rho
    requires delta != 0.0 && 0.0 <= e
  {
    var dsqr := delta * delta;
    SquareSign(delta, dsqr);
    var dsqrReci := 1.0 / dsqr;
    var aux := dsqrReci * e + 1.0;
    ReciprocalPositive(dsqr);
    MulNonNeg(dsqrReci, e);
    var first := 1.0 / aux;
    Rho(dsqr * m.log(aux), first, Finite(-dsqrReci * (first * first)))
  }

  /** Geman-McClure: with a = delta / (delta + e), (e a, a^2, -2 a^3). */
  function GemanMcClureRobustify(delta: real, e: real): Rho
    requires delta + e != 0.0
  {
    var aux := delta / (delta + e);
    var first := aux * aux;
    Rho(e * aux, first, Finite(-2.0 * first * aux))
  }

  /** Welsch: delta^2 (1 - exp(-e / delta^2)). */
  function WelschRobustify(m: Math, delta: real, e: real): Rho
    requires delta != 0.0
  {
    var dsqr := delta * delta;
    SquareSign(delta, dsqr);
    var aux := e / dsqr;
    var aux2 := m.exp(-aux);
    Rho(dsqr * (1.0 - aux2), aux2, Finite(-aux2 / dsqr))
  }

  /** Where Fair's arithmetic stays within the reals: a non-zero width and
      1 + sqrt(e) / delta > 0, which for a negative width means
      e < delta^2 (at e = delta^2 log1p(-1) is -infinity, beyond it NaN). */
  predicate FairDomain(delta: real, e: real)
  {
    delta != 0.0 && 0.0 <= e && (0.0 < delta || e < delta * delta)
  }

  /** On Fair's domain the denominator 1 + sqrt(e) / delta is positive. */
  lemma FairDenominatorPositive(m: Math, delta: real, e: real)
    requires Lawful(m) && FairDomain(delta, e)
    ensures 0.0 < 1.0 + m.sqrt(e) / delta
  {
    var sqrte := m.sqrt(e);
    assert 0.0 <= sqrte && sqrte * sqrte == e;
    if 0.0 < delta {
      DivNonNeg(sqrte, delta);
    } else {
      var w := -delta;
      assert delta * delta == w * w;
      SquareAtMost(w, sqrte);
      if sqrte == 0.0 {
        assert sqrte / delta == 0.0;
      } else {
        DivBelowOne(sqrte, w);
        assert sqrte / delta == -(sqrte / w);
      }
    }
  }

  /** Fair: 2 delta^2 (sqrt(e)/delta - log(1 + sqrt(e)/delta)); the second
      derivative divides by sqrt(e) and is minus infinity at e = 0. */
  function FairRobustify(m: Math, delta: real, e: real): Rho
    requires Lawful(m) && FairDomain(delta, e)
  {
    var sqrte := m.sqrt(e);
    var aux := sqrte / delta;
    assert 0.0 <= sqrte;
    FairDenominatorPositive(m, delta, e);
    var first := 1.0 / (1.0 + aux);
    var value := 2.0 * delta * delta * (aux - m.log1p(aux));
    if sqrte == 0.0 then Rho(value, first, NegInfinity)
    else
      MulPositive(sqrte, 1.0 + aux);
      Rho(value, first, Finite(-0.5 / (sqrte * (1.0 + aux))))
  }

  /** A negative Fair width is computed within its domain: with
      delta = -1 and e = 1/4, sqrt(e) / delta = -1/2, so rho' = 2 and
      rho'' = -2. */
  lemma FairNegativeWidth(m: Math)
    requires Lawful(m)
    ensures Defined(Fair(-1.0), 0.25)
    ensures FairRobustify(m, -1.0, 0.25).first == 2.0
    ensures FairRobustify(m, -1.0, 0.25).second == Finite(-2.0)
  {
    SqrtUnique(m, 0.25, 0.5);
  }

  /** Tukey's biweight: delta^2 (1 - (1 - e / delta^2)^3) / 3 while
      sqrt(e) <= delta, the constant delta^2 / 3 beyond. */
  function TukeyRobustify(m: Math, delta: real, e: real): Rho
    requires Lawful(m) && delta != 0.0 && 0.0 <= e
  {
    var sqrte := m.sqrt(e);
    var delta2 := delta * delta;
    SquareSign(delta, delta2);
    if sqrte <= delta then
      var aux := e / delta2;
      var b := 1.0 - aux;
      Rho(delta2 * (1.0 - b * b * b) / 3.0, b * b, Finite(-2.0 * b / delta2))
    else
      Rho(delta2 / 3.0, 0.0, Finite(0.0))
  }

  /** Saturated: the squared error capped at delta^2, with weight 1 inside
      and 0 beyond. */
  function SaturatedRobustify(delta: real, e: real): (r: Rho)
    ensures r.value <= e && r.value <= delta * delta
    ensures r.value == e || r.value == delta * delta
    ensures r.first == (if e <= delta * delta then 1.0 else 0.0)
  {
    var dsqr := delta * delta;
    if e <= dsqr then Plain(e) else Rho(dsqr, 0.0, Finite(0.0))
  }

  /** Dynamic covariance scaling with phi = delta: the squared error while
      the scale 2 phi / (phi + e) is at least 1, scale^2 e beyond. */
  function DcsRobustify(phi: real, e: real): Rho
    requires phi + e != 0.0
  {
    var scale := (2.0 * phi) / (phi + e);
    if scale >= 1.0 then Plain(e)
    else
      var phiSqr := phi * phi;
      var s := phi + e;
      CubeNonZero(s);
      Rho(scale * e * scale, (4.0 * phiSqr * (phi - e)) / (s * s * s),
          Finite(-(8.0 * phiSqr * (2.0 * phi - e)) / (s * s * s * s)))
  }

  /* ---------------------------------------------------------------------
     Kernels as values, and ScaleDelta
     --------------------------------------------------------------------- */

  /** A configured kernel; ScaleDelta wraps an optional inner kernel. */
  datatype Kernel =
    | ScaleDelta(delta: real, inner: Option<Kernel>)
    | Huber(delta: real)
    | PseudoHuber(delta: real)
    | Cauchy(delta: real)
    | GemanMcClure(delta: real)
    | Welsch(delta: real)
    | Fair(delta: real)
    | Tukey(delta: real)
    | Saturated(delta: real)
    | DCS(delta: real)

  /** The error ScaleDelta hands to its inner kernel: the reciprocal of
      delta^2 times e. */
  function ScaledError(delta: real, e: real): real
    requires delta != 0.0
  {
    SquareSign(delta, delta * delta);
    1.0 / (delta * delta) * e
  }

  /** The kernel's arithmetic stays within the reals at e: no division by
      zero, and no square root or logarithm of a negative number. */
  predicate Defined(k: Kernel, e: real)
  {
    match k
    case ScaleDelta(delta, inner) =>
      inner.Some? ==> delta != 0.0 && Defined(inner.value, ScaledError(delta, e))
    case Huber(_) => true
    case PseudoHuber(delta) => delta != 0.0 && 0.0 <= e
    case Cauchy(delta) => delta != 0.0 && 0.0 <= e
    case GemanMcClure(delta) => delta + e != 0.0
    case Welsch(delta) => delta != 0.0
    case Fair(delta) => FairDomain(delta, e)
    case Tukey(delta) => delta != 0.0 && 0.0 <= e
    case Saturated(_) => true
    case DCS(delta) => delta + e != 0.0
  }

  /** robustify(e, rho) of each kernel; ScaleDelta without an inner kernel
      does not robustify, with one it evaluates the inner kernel at
      e / delta^2 and scales rho by delta^2, rho' by 1 and rho'' by
      1 / delta^2. */
  function Robustify(m: Math, k: Kernel, e: real): (r: Rho)
    requires Lawful(m) && Defined(k, e)
    ensures k.ScaleDelta? && k.inner.None? ==> r == Plain(e)
    decreases k
  {
    match k
    case ScaleDelta(delta, inner) =>
      if inner.Some? then
        var dsqr := delta * delta;
        SquareSign(delta, dsqr);
        var dsqrReci := 1.0 / dsqr;
        ReciprocalPositive(dsqr);
        var rho := Robustify(m, inner.value, ScaledError(delta, e));
        Rho(rho.value * dsqr, rho.first, ScaleExt(dsqrReci, rho.second))
      else Plain(e)
    case Huber(delta) => HuberRobustify(m, delta, e)
    case PseudoHuber(delta) => PseudoHuberRobustify(m, delta, e)
    case Cauchy(delta) => CauchyRobustify(m, delta, e)
    case GemanMcClure(delta) => GemanMcClureRobustify(delta, e)
    case Welsch(delta) => WelschRobustify(m, delta, e)
    case Fair(delta) => FairRobustify(m, delta, e)
    case Tukey(delta) => TukeyRobustify(m, delta, e)
    case Saturated(delta) => SaturatedRobustify(delta, e)
    case DCS(delta) => DcsRobustify(delta, e)
  }

  /* ---------------------------------------------------------------------
     Properties
     --------------------------------------------------------------------- */

  /** Huber never costs more than the squared error, weights it by a
      factor in (0, 1] that is 1 exactly up to delta^2, and has a
      non-positive second derivative. */
  lemma HuberBounds(m: Math, delta: real, e: real)
    requires Lawful(m) && 0.0 < delta
    ensures HuberRobustify(m, delta, e).value <= e
    ensures 0.0 < HuberRobustify(m, delta, e).first <= 1.0
    ensures HuberRobustify(m, delta, e).first == 1.0 <==> e <= delta * delta
    ensures HuberRobustify(m, delta, e).second.Finite? && HuberRobustify(m, delta, e).second.x <= 0.0
  {
    var dsqr := delta * delta;
    if e > dsqr {
      SquareSign(delta, dsqr);
      var s := m.sqrt(e);
      SqrtAbove(m, e, delta);
      var r := HuberOutlier(m, delta, e);
      var d := s - delta;
      SquareSign(d, d * d);
      calc {
        e - r.value;
        == s * s - (2.0 * s * delta - dsqr);
        == d * d;
        >= 0.0;
      }
      DivBelowOne(delta, s);
      NegDiv(r.first, e);
    }
  }

  /** Pseudo-Huber costs nothing negative, weights the squared error by a
      factor in (0, 1] and has a negative second derivative. */
  lemma PseudoHuberBounds(m: Math, delta: real, e: real)
    requires Lawful(m) && delta != 0.0 && 0.0 <= e
    ensures 0.0 <= PseudoHuberRobustify(m, delta, e).value
    ensures 0.0 < PseudoHuberRobustify(m, delta, e).first <= 1.0
    ensures PseudoHuberRobustify(m, delta, e).second.Finite? && PseudoHuberRobustify(m, delta, e).second.x < 0.0
  {
    var dsqr := delta * delta;
    SquareSign(delta, dsqr);
    var dsqrReci := 1.0 / dsqr;
    ReciprocalPositive(dsqr);
    MulNonNeg(dsqrReci, e);
    var aux1 := dsqrReci * e + 1.0;
    var aux2 := m.sqrt(aux1);
    SqrtAtLeastOne(m, aux1);
    MulNonNeg(2.0 * dsqr, aux2 - 1.0);
    ReciprocalUnit(aux2);
    CurvatureNegative(dsqrReci, 1.0 / aux2, aux1);
  }

  /** sqrt(1 + x) <= 1 + x / 2 for x >= 0. */
  lemma RootBelowTangent(m: Math, x: real)
    requires Lawful(m) && 0.0 <= x
    ensures m.sqrt(x + 1.0) <= 1.0 + x / 2.0
  {
    var d := 1.0 + x / 2.0;
    SquareSign(x, x * x);
    calc { d * d; == x + 1.0 + x * x / 4.0; >= x + 1.0; }
    SqrtBelow(m, x + 1.0, d);
  }

  /** Pseudo-Huber never costs more than the squared error. */
  lemma PseudoHuberBelowError(m: Math, delta: real, e: real)
    requires Lawful(m) && delta != 0.0 && 0.0 <= e
    ensures PseudoHuberRobustify(m, delta, e).value <= e
  {
    var dsqr := delta * delta;
    SquareSign(delta, dsqr);
    var x := 1.0 / dsqr * e;
    ScaledErrorScales(delta, e);
    assert x == ScaledError(delta, e);
    RootBelowTangent(m, x);
    var aux2 := m.sqrt(x + 1.0);
    MulMonotone(2.0 * dsqr, aux2 - 1.0, x / 2.0);
    calc {
      PseudoHuberRobustify(m, delta, e).value;
      == 2.0 * dsqr * (aux2 - 1.0);
      <= 2.0 * dsqr * (x / 2.0);
      == x * dsqr;
      == e;
    }
  }

  /** Cauchy weights the squared error by a factor in (0, 1] and has a
      negative second derivative. */
  lemma CauchyBounds(m: Math, delta: real, e: real)
    requires delta != 0.0 && 0.0 <= e
    ensures 0.0 < CauchyRobustify(m, delta, e).first <= 1.0
    ensures CauchyRobustify(m, delta, e).second.Finite? && CauchyRobustify(m, delta, e).second.x < 0.0
  {
    var dsqr := delta * delta;
    SquareSign(delta, dsqr);
    var dsqrReci := 1.0 / dsqr;
    ReciprocalPositive(dsqr);
    MulNonNeg(dsqrReci, e);
    var aux := dsqrReci * e + 1.0;
    ReciprocalUnit(aux);
    var first := 1.0 / aux;
    MulPositive(first, first);
    MulPositive(dsqrReci, first * first);
  }

  /** Geman-McClure never costs more than the squared error, weights it by
      a factor in (0, 1] and has a negative second derivative. */
  lemma GemanMcClureBounds(delta: real, e: real)
    requires 0.0 < delta && 0.0 <= e
    ensures 0.0 <= GemanMcClureRobustify(delta, e).value <= e
    ensures 0.0 < GemanMcClureRobustify(delta, e).first <= 1.0
    ensures GemanMcClureRobustify(delta, e).second.Finite? && GemanMcClureRobustify(delta, e).second.x < 0.0
  {
    var aux := delta / (delta + e);
    DivAtMostOne(delta, delta + e);
    DivNonNeg(delta, delta + e);
    MulAtMost(aux, e);
    MulAtMost(aux, aux);
    MulPositive(aux, aux);
    MulPositive(aux * aux, aux);
  }

  /** Welsch costs less than delta^2, weights the squared error by a factor
      in (0, 1] and has a negative second derivative. */
  lemma WelschBounds(m: Math, delta: real, e: real)
    requires Lawful(m) && delta != 0.0 && 0.0 <= e
    ensures 0.0 <= WelschRobustify(m, delta, e).value < delta * delta
    ensures 0.0 < WelschRobustify(m, delta, e).first <= 1.0
    ensures WelschRobustify(m, delta, e).second.Finite? && WelschRobustify(m, delta, e).second.x < 0.0
  {
    var dsqr := delta * delta;
    SquareSign(delta, dsqr);
    var aux := e / dsqr;
    DivNonNeg(e, dsqr);
    var aux2 := m.exp(-aux);
    assert 0.0 < aux2 <= 1.0;
    MulNonNeg(dsqr, 1.0 - aux2);
    MulPositive(dsqr, aux2);
    calc { dsqr * (1.0 - aux2); == dsqr - dsqr * aux2; < dsqr; }
    NegDiv(aux2, dsqr);
  }

  /** Fair weights the squared error by a factor in (0, 1]; its second
      derivative is minus infinity exactly at e = 0 and negative elsewhere. */
  lemma FairBounds(m: Math, delta: real, e: real)
    requires Lawful(m) && 0.0 < delta && 0.0 <= e
    ensures 0.0 < FairRobustify(m, delta, e).first <= 1.0
    ensures FairRobustify(m, delta, e).second.NegInfinity? <==> e == 0.0
    ensures FairRobustify(m, delta, e).second.Finite? ==> FairRobustify(m, delta, e).second.x < 0.0
  {
    var sqrte := m.sqrt(e);
    var aux := sqrte / delta;
    assert 0.0 <= sqrte;
    DivNonNeg(sqrte, delta);
    ReciprocalUnit(1.0 + aux);
    if e == 0.0 {
      SqrtUnique(m, 0.0, 0.0);
    } else {
      SqrtPositive(m, e);
      MulPositive(sqrte, 1.0 + aux);
      NegDiv(1.0, sqrte * (1.0 + aux));
    }
  }

  /** Tukey's cost lies in [0, delta^2 / 3] and its weight in [0, 1]; beyond
      delta^2 the cost is the constant delta^2 / 3 and the weight 0: the
      measurement no longer pulls at all. */
  lemma TukeyBounds(m: Math, delta: real, e: real)
    requires Lawful(m) && 0.0 < delta && 0.0 <= e
    ensures 0.0 <= TukeyRobustify(m, delta, e).value <= delta * delta / 3.0
    ensures 0.0 <= TukeyRobustify(m, delta, e).first <= 1.0
    ensures delta * delta < e ==> TukeyRobustify(m, delta, e) == Rho(delta * delta / 3.0, 0.0, Finite(0.0))
  {
    var sqrte := m.sqrt(e);
    var delta2 := delta * delta;
    SquareSign(delta, delta2);
    SqrtAtMost(m, e, delta);
    if sqrte <= delta {
      var aux := e / delta2;
      DivAtMostOne(e, delta2);
      var b := 1.0 - aux;
      CubeBounds(b);
      MulAtMost(1.0 - b * b * b, delta2);
    }
  }

  /** DCS keeps the squared error while e <= phi; beyond, it scales it down
      (never below 0) and its derivative turns negative. */
  lemma DcsBounds(phi: real, e: real)
    requires 0.0 < phi && 0.0 <= e
    ensures e <= phi ==> DcsRobustify(phi, e) == Plain(e)
    ensures phi < e ==> 0.0 <= DcsRobustify(phi, e).value <= e && DcsRobustify(phi, e).first < 0.0
  {
    var scale := (2.0 * phi) / (phi + e);
    if e <= phi {
      DivAtLeastOne(2.0 * phi, phi + e);
    } else {
      DivBelowOne(2.0 * phi, phi + e);
      assert 0.0 <= DcsRobustify(phi, e).value <= e by {
        MulAtMost(scale, e);
        MulAtMost(scale, scale * e);
        calc {
          DcsRobustify(phi, e).value;
          == scale * e * scale;
          <= scale * e;
          <= e;
        }
      }
      DcsSlope(phi, e, phi * phi, phi + e);
    }
  }

  /** The slope 4 phi^2 (phi - e) / (phi + e)^3 of the scaled DCS cost is
      negative beyond phi. */
  lemma DcsSlope(phi: real, e: real, phiSqr: real, s: real)
    requires 0.0 < phi < e && phiSqr == phi * phi && s == phi + e
    ensures (4.0 * phiSqr * (phi - e)) / (s * s * s) < 0.0
  {
    SquareSign(phi, phiSqr);
    CubePositive(s);
    var a := 4.0 * phiSqr;
    MulPositive(a, e - phi);
    calc { a * (phi - e); == -(a * (e - phi)); < 0.0; }
    NegativeQuotient(a * (phi - e), s * s * s);
  }

  /** ScaledError is the error in units of delta^2: it scales back to e,
      keeps the sign of e and maps 0 to 0. */
  lemma ScaledErrorScales(delta: real, e: real)
    requires delta != 0.0
    ensures ScaledError(delta, e) * (delta * delta) == e
    ensures 0.0 <= e ==> 0.0 <= ScaledError(delta, e)
    ensures e == 0.0 ==> ScaledError(delta, e) == 0.0
  {
    var dsqr := delta * delta;
    SquareSign(delta, dsqr);
    ReciprocalPositive(dsqr);
    var k := 1.0 / dsqr;
    DivScale(dsqr, e);
    if 0.0 <= e {
      MulNonNeg(k, e);
    }
  }

  /** Every width is positive, the inner kernel's included. */
  predicate PositiveWidths(k: Kernel)
  {
    0.0 < k.delta && (k.ScaleDelta? && k.inner.Some? ==> PositiveWidths(k.inner.value))
  }

  /** The kernels that never cost more than the squared error itself:
      Huber, Pseudo-Huber, Geman-McClure, Saturated and DCS with a positive
      width, and ScaleDelta around nothing or around one of them. */
  predicate Damping(k: Kernel)
  {
    PositiveWidths(k) &&
    match k
    case ScaleDelta(_, inner) => inner.None? || Damping(inner.value)
    case Huber(_) => true
    case PseudoHuber(_) => true
    case GemanMcClure(_) => true
    case Saturated(_) => true
    case DCS(_) => true
    case _ => false
  }

  /** A damping kernel is defined on every squared error and costs at most
      that error. */
  lemma {:induction false} DampingBelowError(m: Math, k: Kernel, e: real)
    requires Lawful(m) && Damping(k) && 0.0 <= e
    ensures Defined(k, e) && Robustify(m, k, e).value <= e
    decreases k, 1
  {
    DefinedOnSquaredErrors(k, e);
    match k
    case ScaleDelta(delta, inner) =>
      if inner.Some? {
        ScaledBelowError(m, delta, inner.value, e);
      }
    case Huber(delta) => HuberBounds(m, delta, e);
    case PseudoHuber(delta) => PseudoHuberBelowError(m, delta, e);
    case GemanMcClure(delta) => GemanMcClureBounds(delta, e);
    case Saturated(delta) =>
    case DCS(delta) => DcsBounds(delta, e);
  }

  /** ScaleDelta around a damping kernel: the inner cost at e / delta^2 is
      at most e / delta^2, so scaled back it is at most e. */
  lemma {:induction false} ScaledBelowError(m: Math, delta: real, inner: Kernel, e: real)
    requires Lawful(m) && 0.0 < delta && Damping(inner) && 0.0 <= e
    ensures Defined(ScaleDelta(delta, Some(inner)), e)
    ensures Robustify(m, ScaleDelta(delta, Some(inner)), e).value <= e
    decreases ScaleDelta(delta, Some(inner)), 0
  {
    var u := ScaledError(delta, e);
    ScaledErrorScales(delta, e);
    DampingBelowError(m, inner, u);
    var dsqr := delta * delta;
    SquareSign(delta, dsqr);
    var v := Robustify(m, inner, u).value;
    assert Robustify(m, ScaleDelta(delta, Some(inner)), e).value == v * dsqr;
    MulMonotone(dsqr, v, u);
    calc {
      Robustify(m, ScaleDelta(delta, Some(inner)), e).value;
    ==
      v * dsqr;
    <=
      u * dsqr;
    ==  { ScaledBack(delta, e, u, dsqr); }
      e;
    }
  }

  /** The scaled error times delta^2 is the error, with both named. */
  lemma ScaledBack(delta: real, e: real, u: real, dsqr: real)
    requires delta != 0.0 && u == ScaledError(delta, e) && dsqr == delta * delta
    ensures u * dsqr == e
  {
    ScaledErrorScales(delta, e);
  }

  /** With positive widths every kernel is defined on every squared error. */
  lemma {:induction false} DefinedOnSquaredErrors(k: Kernel, e: real)
    requires PositiveWidths(k) && 0.0 <= e
    ensures Defined(k, e)
  {
    if k.ScaleDelta? && k.inner.Some? {
      ScaledErrorScales(k.delta, e);
      DefinedOnSquaredErrors(k.inner.value, ScaledError(k.delta, e));
    }
  }

  /** With positive widths every kernel maps a zero error to zero cost and
      weights it 1: near the optimum a robust kernel behaves like plain
      least squares. */
  lemma {:induction false} ZeroErrorIsNeutral(m: Math, k: Kernel)
    requires Lawful(m) && PositiveWidths(k)
    ensures Defined(k, 0.0)
    ensures Robustify(m, k, 0.0).value == 0.0 && Robustify(m, k, 0.0).first == 1.0
  {
    DefinedOnSquaredErrors(k, 0.0);
    match k
    case ScaleDelta(delta, inner) =>
      if inner.Some? {
        ScaledErrorScales(delta, 0.0);
        ZeroErrorIsNeutral(m, inner.value);
      }
    case Huber(delta) =>
      SquareSign(delta, delta * delta);
    case PseudoHuber(delta) =>
      SqrtUnique(m, 1.0, 1.0);
    case Fair(delta) =>
      SqrtUnique(m, 0.0, 0.0);
    case Tukey(delta) =>
      SqrtUnique(m, 0.0, 0.0);
    case Saturated(delta) =>
      SquareSign(delta, delta * delta);
    case _ =>
  }

  /** Huber's two branches meet at e = delta^2: the outlier formula gives
      the inlier cost delta^2 and weight 1 there, so the cost and its
      derivative are continuous. */
  lemma HuberSmoothAtDelta(m: Math, delta: real)
    requires Lawful(m) && 0.0 < delta
    ensures HuberOutlier(m, delta, Square(delta)).value == Square(delta)
    ensures HuberOutlier(m, delta, Square(delta)).first == 1.0
  {
    SquareSign(delta, delta * delta);
    SqrtUnique(m, delta * delta, delta);
  }

  /** Tukey's inlier formula reaches the outlier constant delta^2 / 3 with
      weight 0 at e = delta^2: cost and weight are continuous. */
  lemma TukeySmoothAtDelta(m: Math, delta: real)
    requires Lawful(m) && 0.0 < delta
    ensures TukeyRobustify(m, delta, delta * delta) == Rho(delta * delta / 3.0, 0.0, Finite(0.0))
  {
    var d2 := delta * delta;
    SquareSign(delta, d2);
    SqrtUnique(m, d2, delta);
    var b := 1.0 - d2 / d2;
    assert b == 0.0;
    calc { d2 * (1.0 - b * b * b) / 3.0; == d2 * 1.0 / 3.0; == d2 / 3.0; }
    assert TukeyRobustify(m, delta, d2).value == d2 / 3.0;
    assert TukeyRobustify(m, delta, d2).first == 0.0;
    assert TukeyRobustify(m, delta, d2).second == Finite(0.0);
  }

  /** ScaleDelta with width 1 changes nothing about the inner kernel. */
  lemma ScaleDeltaUnit(m: Math, k: Kernel, e: real)
    requires Lawful(m) && Defined(k, e)
    ensures Defined(ScaleDelta(1.0, Some(k)), e)
    ensures Robustify(m, ScaleDelta(1.0, Some(k)), e) == Robustify(m, k, e)
  {
    assert ScaledError(1.0, e) == e;
    var rho := Robustify(m, k, e);
    assert ScaleExt(1.0, rho.second) == rho.second;
  }

  /** With u delta^2 = e and delta^2 > 0, u is at most 1 exactly when e is
      at most delta^2. */
  lemma UnitCompare(u: real, d: real, e: real)
    requires 0.0 < d && u * d == e
    ensures u <= 1.0 <==> e <= d
  {
    if u <= 1.0 {
      MulMonotone(d, u, 1.0);
    } else {
      MulPositive(d, u - 1.0);
    }
  }

  /** ScaleDelta turns the unit Saturated kernel into the Saturated kernel
      of width delta. */
  lemma ScaleDeltaSaturated(m: Math, delta: real, e: real)
    requires Lawful(m) && 0.0 < delta
    ensures Robustify(m, ScaleDelta(delta, Some(Saturated(1.0))), e) == SaturatedRobustify(delta, e)
  {
    var dsqr := delta * delta;
    SquareSign(delta, dsqr);
    ScaledErrorScales(delta, e);
    var u := ScaledError(delta, e);
    calc { u * dsqr; == ScaledError(delta, e) * (delta * delta); == e; }
    UnitCompare(u, dsqr, e);
  }

  /** ScaleDelta turns the unit Huber kernel into the Huber kernel of width
      delta: the width is a scale of the squared error. */
  lemma ScaleDeltaHuber(m: Math, delta: real, e: real)
    requires Lawful(m) && 0.0 < delta
    ensures Defined(ScaleDelta(delta, Some(Huber(1.0))), e)
    ensures Robustify(m, ScaleDelta(delta, Some(Huber(1.0))), e) == HuberRobustify(m, delta, e)
  {
    var dsqr := delta * delta;
    SquareSign(delta, dsqr);
    ScaledErrorScales(delta, e);
    var u := ScaledError(delta, e);
    calc { u * dsqr; == ScaledError(delta, e) * (delta * delta); == e; }
    UnitCompare(u, dsqr, e);
    if dsqr < e {
      ScaleDeltaHuberOutlier(m, delta, dsqr, e, u);
    }
  }

  /** The outlier branch of Huber commutes with the ScaleDelta scaling. */
  lemma ScaleDeltaHuberOutlier(m: Math, delta: real, dsqr: real, e: real, u: real)
    requires Lawful(m) && 0.0 < delta && dsqr == delta * delta && 0.0 < dsqr < e
    requires u * dsqr == e && 1.0 < u
    ensures HuberOutlier(m, 1.0, u).value * dsqr == HuberOutlier(m, delta, e).value
    ensures HuberOutlier(m, 1.0, u).first == HuberOutlier(m, delta, e).first
    ensures ScaleExt(1.0 / dsqr, HuberOutlier(m, 1.0, u).second) == HuberOutlier(m, delta, e).second
  {
    var s := m.sqrt(e);
    SqrtPositive(m, e);
    var t := s / delta;
    assert m.sqrt(u) == t by {
      DivNonNeg(s, delta);
      calc { t * t; == (s * s) / dsqr; == e / dsqr; == u; }
      SqrtUnique(m, u, t);
    }
    assert HuberOutlier(m, 1.0, u).value * dsqr == 2.0 * s * delta - dsqr by {
      calc {
        HuberOutlier(m, 1.0, u).value * dsqr;
        == (2.0 * t * 1.0 - 1.0 * 1.0) * dsqr;
        == 2.0 * (t * dsqr) - dsqr;
        == 2.0 * s * delta - dsqr;
      }
    }
    assert 1.0 / t == delta / s;
    ReciprocalPositive(dsqr);
    assert 1.0 / dsqr * (-0.5 * (delta / s) / u) == -0.5 * (delta / s) / e by {
      calc {
        1.0 / dsqr * (-0.5 * (delta / s) / u);
        == -0.5 * (delta / s) / (u * dsqr);
        == -0.5 * (delta / s) / e;
      }
    }
  }
}
