/**
 * Weighted least-squares straight lines over exact reals: the weighted sums
 * a fit is made of, the fits through the origin and with an intercept in
 * closed form, their normal equations, and the proof that they minimise the
 * weighted sum of squared residuals.
 */
module LeastSquares {

  /** A point the regression sees: finite concentration, area and weight. */
  datatype Point = Point(c: real, a: real, w: real)

  // ---------------------------------------------------------------------------
  // Weighted sums

  /** The six weighted sums a weighted straight-line fit is made of. */
  datatype Moments = Moments(w: real, wc: real, wa: real, wcc: real, wca: real, waa: real)
  {
    function Plus(o: Moments): Moments
    {
      Moments(w + o.w, wc + o.wc, wa + o.wa, wcc + o.wcc, wca + o.wca, waa + o.waa)
    }
  }

  function PointMoments(p: Point): Moments
  {
    Moments(p.w, p.w * p.c, p.w * p.a, p.w * p.c * p.c, p.w * p.c * p.a, p.w * p.a * p.a)
  }

  /** Σw, Σw·c, Σw·a, Σw·c², Σw·c·a and Σw·a² over the points. */
  function MomentsOf(ps: seq<Point>): Moments
  {
    if ps == [] then Moments(0.0, 0.0, 0.0, 0.0, 0.0, 0.0)
    else PointMoments(ps[0]).Plus(MomentsOf(ps[1..]))
  }

  /**
   * x². Squares are kept behind this function: the solver reasons about them
   * through the lemmas below rather than by expanding the product.
   */
  function Sq(x: real): real
  {
    x * x
  }

  function Resid(p: Point, b0: real, b1: real): real
  {
    p.a - b0 - b1 * p.c
  }

  /** Σ w·(a − b0 − b1·c)²: what weighted least squares minimises. */
  function Ssr(ps: seq<Point>, b0: real, b1: real): real
  {
    if ps == [] then 0.0
    else ps[0].w * Sq(Resid(ps[0], b0, b1)) + Ssr(ps[1..], b0, b1)
  }

  /** Σ w·(a − b0 − b1·c)² expanded through the moments. */
  function Quad(m: Moments, b0: real, b1: real): real
  {
    m.waa - 2.0 * b0 * m.wa - 2.0 * b1 * m.wca + b0 * b0 * m.w + 2.0 * b0 * b1 * m.wc + b1 * b1 * m.wcc
  }

  /** d0 + d1·c at one point. */
  function Lin(p: Point, d0: real, d1: real): real
  {
    d0 + d1 * p.c
  }

  /** w·(d0 + d1·c)² at one point. */
  function WeightedSquare(p: Point, d0: real, d1: real): real
  {
    p.w * Sq(Lin(p, d0, d1))
  }

  /** With w > 0, w·(d0 + d1·c)² is non-negative, and zero only where d0 + d1·c is. */
  lemma WeightedSquareSign(p: Point, d0: real, d1: real)
    requires p.w > 0.0
    ensures WeightedSquare(p, d0, d1) >= 0.0
    ensures WeightedSquare(p, d0, d1) == 0.0 <==> Lin(p, d0, d1) == 0.0
  {
    SquareSign(Lin(p, d0, d1));
    ProductSign(p.w, Sq(Lin(p, d0, d1)));
  }

  /** With d1 != 0, d0 + d1·c vanishes at exactly one concentration. */
  lemma LinRoot(p: Point, d0: real, d1: real)
    requires d1 != 0.0
    ensures Lin(p, d0, d1) == 0.0 <==> p.c == -d0 / d1
  {
  }

  /** Σ w·(d0 + d1·c)² expanded through the moments. */
  function QuadForm(m: Moments, d0: real, d1: real): real
  {
    d0 * d0 * m.w + 2.0 * d0 * d1 * m.wc + d1 * d1 * m.wcc
  }

  lemma QuadPlus(m: Moments, n: Moments, b0: real, b1: real)
    ensures Quad(m.Plus(n), b0, b1) == Quad(m, b0, b1) + Quad(n, b0, b1)
  {
  }

  lemma QuadPoint(p: Point, b0: real, b1: real)
    ensures p.w * Sq(Resid(p, b0, b1)) == Quad(PointMoments(p), b0, b1)
  {
  }

  lemma QuadFormPlus(m: Moments, n: Moments, d0: real, d1: real)
    ensures QuadForm(m.Plus(n), d0, d1) == QuadForm(m, d0, d1) + QuadForm(n, d0, d1)
  {
  }

  lemma QuadFormPoint(p: Point, d0: real, d1: real)
    ensures QuadForm(PointMoments(p), d0, d1) == WeightedSquare(p, d0, d1)
  {
  }

  /** Shifting the coefficients by (d0, d1) changes Quad by the normal-equation residuals and a QuadForm. */
  lemma QuadShift(m: Moments, b0: real, b1: real, e0: real, e1: real)
    ensures Quad(m, e0, e1) ==
      Quad(m, b0, b1)
      - 2.0 * (e0 - b0) * (m.wa - b0 * m.w - b1 * m.wc)
      - 2.0 * (e1 - b1) * (m.wca - b0 * m.wc - b1 * m.wcc)
      + QuadForm(m, e0 - b0, e1 - b1)
  {
  }

  /** A square is non-negative, and zero only at zero. */
  lemma SquareSign(e: real)
    ensures Sq(e) >= 0.0
    ensures Sq(e) == 0.0 <==> e == 0.0
  {
    if e != 0.0 {
      assert Sq(e) * (1.0 / e) == e;
    }
  }

  /** A factor of a positive product whose other factor is non-negative is positive. */
  lemma PositiveFactor(w: real, s: real)
    requires s >= 0.0 && w * s == 1.0
    ensures w > 0.0 && s != 0.0
  {
  }

  /** A product with a positive factor has the sign of the other factor. */
  lemma ProductSign(w: real, d: real)
    requires w > 0.0
    ensures d >= 0.0 ==> w * d >= 0.0
    ensures d < 0.0 ==> w * d < 0.0
    ensures w * d == 0.0 <==> d == 0.0
  {
  }

  lemma Cancel(w: real, x: real, y: real)
    requires w != 0.0 && w * x == w * y
    ensures x == y
  {
    assert w * (x - y) == 0.0;
  }

  /** The residual sum of squares is the moment quadratic. */
  lemma {:induction false} SsrIsQuad(ps: seq<Point>, b0: real, b1: real)
    ensures Ssr(ps, b0, b1) == Quad(MomentsOf(ps), b0, b1)
  {
    if ps != [] {
      SsrIsQuad(ps[1..], b0, b1);
      QuadPoint(ps[0], b0, b1);
      QuadPlus(PointMoments(ps[0]), MomentsOf(ps[1..]), b0, b1);
    }
  }

  predicate PositiveWeights(ps: seq<Point>)
  {
    forall i | 0 <= i < |ps| :: ps[i].w > 0.0
  }

  lemma PositiveWeightsTail(ps: seq<Point>)
    requires PositiveWeights(ps) && ps != []
    ensures PositiveWeights(ps[1..])
  {
    forall i | 0 <= i < |ps[1..]| ensures ps[1..][i].w > 0.0 {
      assert ps[1..][i] == ps[i + 1];
    }
  }

  /** Σ w·(d0 + d1·c)², term by term. */
  function WeightedSquares(ps: seq<Point>, d0: real, d1: real): real
  {
    if ps == [] then 0.0
    else WeightedSquare(ps[0], d0, d1) + WeightedSquares(ps[1..], d0, d1)
  }

  lemma {:induction false} WeightedSquaresIsQuadForm(ps: seq<Point>, d0: real, d1: real)
    ensures WeightedSquares(ps, d0, d1) == QuadForm(MomentsOf(ps), d0, d1)
  {
    if ps != [] {
      WeightedSquaresIsQuadForm(ps[1..], d0, d1);
      QuadFormPoint(ps[0], d0, d1);
      QuadFormPlus(PointMoments(ps[0]), MomentsOf(ps[1..]), d0, d1);
    }
  }

  /** d0 + d1·c vanishes at every point. */
  predicate Vanishes(ps: seq<Point>, d0: real, d1: real)
  {
    forall i | 0 <= i < |ps| :: Lin(ps[i], d0, d1) == 0.0
  }

  lemma VanishesCons(ps: seq<Point>, d0: real, d1: real)
    requires ps != []
    ensures Vanishes(ps, d0, d1) <==> Lin(ps[0], d0, d1) == 0.0 && Vanishes(ps[1..], d0, d1)
  {
    assert forall i | 0 <= i < |ps[1..]| :: ps[1..][i] == ps[i + 1];
    assert forall i | 1 <= i < |ps| :: ps[i] == ps[1..][i - 1];
  }

  /** With positive weights Σ w·(d0 + d1·c)² is non-negative, and zero only when every d0 + d1·c is. */
  lemma {:induction false} WeightedSquaresSign(ps: seq<Point>, d0: real, d1: real)
    requires PositiveWeights(ps)
    ensures WeightedSquares(ps, d0, d1) >= 0.0
    ensures WeightedSquares(ps, d0, d1) == 0.0 <==> Vanishes(ps, d0, d1)
  {
    if ps != [] {
      PositiveWeightsTail(ps);
      WeightedSquaresSign(ps[1..], d0, d1);
      WeightedSquareSign(ps[0], d0, d1);
      VanishesCons(ps, d0, d1);
    }
  }

  lemma QuadFormSign(ps: seq<Point>, d0: real, d1: real)
    requires PositiveWeights(ps)
    ensures QuadForm(MomentsOf(ps), d0, d1) >= 0.0
    ensures QuadForm(MomentsOf(ps), d0, d1) == 0.0 <==> Vanishes(ps, d0, d1)
  {
    WeightedSquaresIsQuadForm(ps, d0, d1);
    WeightedSquaresSign(ps, d0, d1);
  }

  // ---------------------------------------------------------------------------
  // The two fits

  /** Weighted slope through the origin, Σw·c·a / Σw·c², fixed by its normal equation. */
  function OriginSlope(m: Moments): (b1: real)
    requires m.wcc != 0.0
    ensures b1 * m.wcc == m.wca
  {
    m.wca / m.wcc
  }

  /** Σw·Σw·c² − (Σw·c)²: the determinant of the two-parameter normal equations. */
  function Det(m: Moments): real
  {
    m.w * m.wcc - m.wc * m.wc
  }

  /** Cramer's rule for the slope, back-substitution for the intercept. */
  lemma SolveByElimination(w: real, wc: real, wcc: real, wa: real, wca: real, det: real, b0: real, b1: real)
    requires w != 0.0 && det == w * wcc - wc * wc && det != 0.0
    requires b1 == (w * wca - wc * wa) / det && b0 == (wa - b1 * wc) / w
    ensures w * b0 + wc * b1 == wa
    ensures wc * b0 + wcc * b1 == wca
  {
    assert w * b0 == wa - b1 * wc;
    assert b1 * det == w * wca - wc * wa;
    assert w * (wc * b0 + wcc * b1) == wc * (wa - b1 * wc) + w * wcc * b1;
    Cancel(w, wc * b0 + wcc * b1, wca);
  }

  /** The two normal equations of the weighted line with intercept. */
  predicate NormalEquations(m: Moments, b0: real, b1: real)
  {
    && m.w * b0 + m.wc * b1 == m.wa
    && m.wc * b0 + m.wcc * b1 == m.wca
  }

  /** Weighted line with intercept, fixed by its two normal equations. */
  function InterceptLine(m: Moments): (b: (real, real))
    requires m.w != 0.0 && Det(m) != 0.0
    ensures NormalEquations(m, b.0, b.1)
  {
    var b1 := (m.w * m.wca - m.wc * m.wa) / Det(m);
    var b0 := (m.wa - b1 * m.wc) / m.w;
    SolveByElimination(m.w, m.wc, m.wcc, m.wa, m.wca, Det(m), b0, b1);
    (b0, b1)
  }

  /** The through-origin slope minimises the weighted residual sum of squares among all slopes. */
  lemma OriginSlopeMinimises(ps: seq<Point>, b: real)
    requires PositiveWeights(ps) && MomentsOf(ps).wcc != 0.0
    ensures Ssr(ps, 0.0, OriginSlope(MomentsOf(ps))) <= Ssr(ps, 0.0, b)
  {
    var m := MomentsOf(ps);
    var s := OriginSlope(m);
    SsrIsQuad(ps, 0.0, s);
    SsrIsQuad(ps, 0.0, b);
    QuadShift(m, 0.0, s, 0.0, b);
    QuadFormSign(ps, 0.0 - 0.0, b - s);
    assert m.wca - 0.0 * m.wc - s * m.wcc == 0.0;
  }

  /** At a solution of the normal equations the cross terms of QuadShift vanish. */
  lemma QuadAtSolution(m: Moments, c0: real, c1: real, b0: real, b1: real)
    requires NormalEquations(m, c0, c1)
    ensures Quad(m, b0, b1) == Quad(m, c0, c1) + QuadForm(m, b0 - c0, b1 - c1)
  {
    QuadShift(m, c0, c1, b0, b1);
    assert m.wa - c0 * m.w - c1 * m.wc == 0.0;
    assert m.wca - c0 * m.wc - c1 * m.wcc == 0.0;
  }

  /** Any solution of the normal equations minimises the weighted residual sum of squares among all lines. */
  lemma NormalEquationsMinimise(ps: seq<Point>, c0: real, c1: real, b0: real, b1: real)
    requires PositiveWeights(ps) && NormalEquations(MomentsOf(ps), c0, c1)
    ensures Ssr(ps, c0, c1) <= Ssr(ps, b0, b1)
  {
    SsrIsQuad(ps, c0, c1);
    SsrIsQuad(ps, b0, b1);
    QuadAtSolution(MomentsOf(ps), c0, c1, b0, b1);
    QuadFormSign(ps, b0 - c0, b1 - c1);
  }

  /** The line with intercept minimises the weighted residual sum of squares among all lines. */
  lemma InterceptLineMinimises(ps: seq<Point>, b0: real, b1: real)
    requires PositiveWeights(ps) && MomentsOf(ps).w != 0.0 && Det(MomentsOf(ps)) != 0.0
    ensures Ssr(ps, InterceptLine(MomentsOf(ps)).0, InterceptLine(MomentsOf(ps)).1) <= Ssr(ps, b0, b1)
  {
    var b := InterceptLine(MomentsOf(ps));
    NormalEquationsMinimise(ps, b.0, b.1, b0, b1);
  }

  /** Data lying exactly on a line with intercept b0 and slope b1. */
  predicate OnLine(ps: seq<Point>, b0: real, b1: real)
  {
    forall i | 0 <= i < |ps| :: Resid(ps[i], b0, b1) == 0.0
  }

  lemma OnLineTail(ps: seq<Point>, b0: real, b1: real)
    requires OnLine(ps, b0, b1) && ps != []
    ensures OnLine(ps[1..], b0, b1)
  {
    forall i | 0 <= i < |ps[1..]| ensures Resid(ps[1..][i], b0, b1) == 0.0 {
      assert ps[1..][i] == ps[i + 1];
    }
  }

  /** The two normal-equation sums a line (b0, b1) balances exactly. */
  predicate Balanced(m: Moments, b0: real, b1: real)
  {
    m.wa == b0 * m.w + b1 * m.wc && m.wca == b0 * m.wc + b1 * m.wcc
  }

  lemma PointBalanced(p: Point, b0: real, b1: real)
    requires Resid(p, b0, b1) == 0.0
    ensures Balanced(PointMoments(p), b0, b1)
  {
    assert p.a == b0 + b1 * p.c;
    assert p.w * p.a == b0 * p.w + b1 * (p.w * p.c);
    assert p.w * p.c * p.a == b0 * (p.w * p.c) + b1 * (p.w * p.c * p.c);
  }

  lemma PlusBalanced(m: Moments, n: Moments, b0: real, b1: real)
    requires Balanced(m, b0, b1) && Balanced(n, b0, b1)
    ensures Balanced(m.Plus(n), b0, b1)
  {
  }

  lemma {:induction false} LineMoments(ps: seq<Point>, b0: real, b1: real)
    requires OnLine(ps, b0, b1)
    ensures Balanced(MomentsOf(ps), b0, b1)
  {
    if ps != [] {
      OnLineTail(ps, b0, b1);
      LineMoments(ps[1..], b0, b1);
      assert Resid(ps[0], b0, b1) == 0.0;
      PointBalanced(ps[0], b0, b1);
      PlusBalanced(PointMoments(ps[0]), MomentsOf(ps[1..]), b0, b1);
    }
  }

  /** Exact data through the origin: the fitted slope is the true one. */
  lemma ExactOriginRecovered(ps: seq<Point>, s: real)
    requires OnLine(ps, 0.0, s) && MomentsOf(ps).wcc != 0.0
    ensures OriginSlope(MomentsOf(ps)) == s
  {
    var m := MomentsOf(ps);
    LineMoments(ps, 0.0, s);
    Cancel(m.wcc, OriginSlope(m), s);
  }

  /** A non-singular system of normal equations has one solution. */
  lemma NormalEquationsUnique(m: Moments, c0: real, c1: real, d0: real, d1: real)
    requires m.w != 0.0 && Det(m) != 0.0
    requires NormalEquations(m, c0, c1) && NormalEquations(m, d0, d1)
    ensures c0 == d0 && c1 == d1
  {
    var e0, e1 := c0 - d0, c1 - d1;
    assert m.w * e0 + m.wc * e1 == 0.0;
    assert m.wc * e0 + m.wcc * e1 == 0.0;
    assert Det(m) * e1 == m.w * (m.wc * e0 + m.wcc * e1) - m.wc * (m.w * e0 + m.wc * e1);
    Cancel(Det(m), e1, 0.0);
    Cancel(m.w, e0, 0.0);
  }

  /** Exact data on a line: the fitted intercept and slope are the true ones. */
  lemma ExactLineRecovered(ps: seq<Point>, b0: real, b1: real)
    requires OnLine(ps, b0, b1) && MomentsOf(ps).w != 0.0 && Det(MomentsOf(ps)) != 0.0
    ensures InterceptLine(MomentsOf(ps)) == (b0, b1)
  {
    var m := MomentsOf(ps);
    LineMoments(ps, b0, b1);
    var b := InterceptLine(m);
    NormalEquationsUnique(m, b.0, b.1, b0, b1);
  }

  // ---------------------------------------------------------------------------
  // When is the intercept design singular?

  predicate AllSameConcentration(ps: seq<Point>)
  {
    forall i | 0 <= i < |ps| :: ps[i].c == ps[0].c
  }

  lemma QuadFormDet(m: Moments)
    ensures QuadForm(m, -m.wc, m.w) == m.w * Det(m)
  {
  }

  lemma {:induction false} SumWPositive(ps: seq<Point>)
    requires PositiveWeights(ps) && ps != []
    ensures MomentsOf(ps).w > 0.0
  {
    if |ps| > 1 {
      PositiveWeightsTail(ps);
      SumWPositive(ps[1..]);
    }
  }

  lemma {:induction false} ConstantConcentrationMoments(ps: seq<Point>, c0: real)
    requires forall i | 0 <= i < |ps| :: ps[i].c == c0
    ensures MomentsOf(ps).wc == c0 * MomentsOf(ps).w
  {
    if ps != [] {
      assert forall i | 0 <= i < |ps[1..]| :: ps[1..][i] == ps[i + 1];
      ConstantConcentrationMoments(ps[1..], c0);
    }
  }

  lemma {:induction false} ConstantConcentrationSquares(ps: seq<Point>, c0: real)
    requires forall i | 0 <= i < |ps| :: ps[i].c == c0
    ensures MomentsOf(ps).wcc == c0 * MomentsOf(ps).wc
  {
    if ps != [] {
      assert forall i | 0 <= i < |ps[1..]| :: ps[1..][i] == ps[i + 1];
      ConstantConcentrationSquares(ps[1..], c0);
      var p, rest := ps[0], MomentsOf(ps[1..]);
      assert PointMoments(p).wcc == c0 * PointMoments(p).wc;
      assert MomentsOf(ps).wcc == PointMoments(p).wcc + rest.wcc;
      assert MomentsOf(ps).wc == PointMoments(p).wc + rest.wc;
    }
  }

  /** With positive weights, Σw > 0 and the determinant is w⁻¹·Σ w·(w·c − Σw·c)² ≥ 0. */
  lemma DetSign(ps: seq<Point>)
    requires PositiveWeights(ps) && ps != []
    ensures MomentsOf(ps).w > 0.0
    ensures Det(MomentsOf(ps)) >= 0.0
    ensures Det(MomentsOf(ps)) == 0.0 <==> Vanishes(ps, -MomentsOf(ps).wc, MomentsOf(ps).w)
  {
    var m := MomentsOf(ps);
    SumWPositive(ps);
    QuadFormDet(m);
    QuadFormSign(ps, -m.wc, m.w);
    ProductSign(m.w, Det(m));
  }

  /** A non-constant linear form vanishes at every point exactly when it vanishes at a shared concentration. */
  lemma VanishesIffSame(ps: seq<Point>, d0: real, d1: real)
    requires ps != [] && d1 != 0.0
    ensures Vanishes(ps, d0, d1) <==> AllSameConcentration(ps) && Lin(ps[0], d0, d1) == 0.0
  {
    forall i | 0 <= i < |ps| {
      LinRoot(ps[i], d0, d1);
    }
    LinRoot(ps[0], d0, d1);
  }

  /** With positive weights, the intercept design is singular exactly when every concentration is the same. */
  lemma SingularIffOneConcentration(ps: seq<Point>)
    requires PositiveWeights(ps) && ps != []
    ensures MomentsOf(ps).w > 0.0
    ensures Det(MomentsOf(ps)) >= 0.0
    ensures Det(MomentsOf(ps)) == 0.0 <==> AllSameConcentration(ps)
  {
    var m := MomentsOf(ps);
    DetSign(ps);
    VanishesIffSame(ps, -m.wc, m.w);
    if AllSameConcentration(ps) {
      ConstantConcentrationMoments(ps, ps[0].c);
      LinRoot(ps[0], -m.wc, m.w);
      assert -(-m.wc) / m.w == ps[0].c;
    }
  }

}
