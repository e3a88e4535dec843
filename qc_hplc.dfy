/**
 * Quality control of HPLC runs (scripts/qc_hplc.py). Per (injection,
 * channel), an ordinary least-squares line of retention time against the
 * molecules' retention constants gives each peak an expected retention time
 * and a relative deviation from it; per peak, two plate counts estimate the
 * column's efficiency, one from the half-height width and one from the
 * height/area ratio.
 *
 * The regression is `scipy.stats.linregress` written in its centred closed
 * form and shown to be the unit-weight least-squares line of LeastSquares.
 */
module HplcQc {
  import opened Wrappers
  import opened Floats
  import opened LeastSquares

  /** One row of the peak table. */
  datatype Peak = Peak(
    injectionId: string,
    moleculeId: string,
    channel: string,
    tip: Value,
    width50: Value,
    height: Value,
    area: Value)

  /** The `(injection_id, channel)` key the retention fit is grouped by. */
  datatype RunKey = RunKey(injectionId: string, channel: string)

  function RunOf(p: Peak): RunKey
  {
    RunKey(p.injectionId, p.channel)
  }

  /** A peak after the left join with the molecule table. */
  datatype Joined = Joined(peak: Peak, retentionConstant: Value)

  /** One output row: the peak's key, its retention deviation and its two plate counts. */
  datatype QcRow = QcRow(
    injectionId: string,
    moleculeId: string,
    channel: string,
    retentionDeviation: Value,
    platesHph: Value,
    platesAh: Value)

  // ---------------------------------------------------------------------------
  // The join and the filter (qc_hplc.py:9, 24)

  /** `peak.join(molecule, on='molecule_id')`: a molecule the table lacks gets NaN. */
  function JoinConstant(constants: map<string, Value>, p: Peak): (j: Joined)
    ensures j.peak == p
    ensures p.moleculeId !in constants ==> j.retentionConstant == NaN
    ensures p.moleculeId in constants ==> j.retentionConstant == constants[p.moleculeId]
  {
    Joined(p, if p.moleculeId in constants then constants[p.moleculeId] else NaN)
  }

  /** A peak takes part in the retention fit unless its constant or its retention time is missing. */
  predicate Usable(j: Joined)
  {
    !j.retentionConstant.NaN? && !j.peak.tip.NaN?
  }

  /** `dropna(subset=['retention_constant', 'tip'])`, keeping the order. */
  function UsableOnly(js: seq<Joined>): (r: seq<Joined>)
    ensures |r| <= |js|
    ensures forall i | 0 <= i < |r| :: Usable(r[i]) && r[i] in js
    ensures forall i | 0 <= i < |js| :: Usable(js[i]) ==> js[i] in r
  {
    if js == [] then []
    else
      var rest := UsableOnly(js[1..]);
      assert forall i | 1 <= i < |js| :: js[i] == js[1..][i - 1];
      if Usable(js[0]) then [js[0]] + rest else rest
  }

  /**
   * The filter distributes over concatenation, so it keeps the order of the
   * usable peaks and their repeats.
   */
  lemma {:induction false} UsableOnlyAppend(a: seq<Joined>, b: seq<Joined>)
    ensures UsableOnly(a + b) == UsableOnly(a) + UsableOnly(b)
  {
    if a == [] {
      assert a + b == b;
    } else {
      assert (a + b)[0] == a[0] && (a + b)[1..] == a[1..] + b;
      UsableOnlyAppend(a[1..], b);
    }
  }

  /** A peak whose molecule the molecule table lacks has no retention constant and takes part in no fit. */
  lemma UnknownMoleculeNotFitted(constants: map<string, Value>, p: Peak, js: seq<Joined>)
    requires p.moleculeId !in constants
    ensures JoinConstant(constants, p).retentionConstant == NaN
    ensures JoinConstant(constants, p) !in UsableOnly(js)
  {
  }

  // ---------------------------------------------------------------------------
  // Ordinary least squares (qc_hplc.py:15)

  /** The fitted points of an unweighted regression: every weight is 1. */
  predicate UnitWeights(ps: seq<Point>)
  {
    forall i | 0 <= i < |ps| :: ps[i].w == 1.0
  }

  lemma UnitWeightsTail(ps: seq<Point>)
    requires UnitWeights(ps) && ps != []
    ensures UnitWeights(ps[1..])
  {
    assert forall i | 0 <= i < |ps[1..]| :: ps[1..][i] == ps[i + 1];
  }

  lemma UnitWeightsPositive(ps: seq<Point>)
    requires UnitWeights(ps)
    ensures PositiveWeights(ps)
  {
  }

  /** With unit weights, Σw counts the points. */
  lemma {:induction false} UnitWeightCount(ps: seq<Point>)
    requires UnitWeights(ps)
    ensures MomentsOf(ps).w == |ps| as real
  {
    if ps != [] {
      UnitWeightsTail(ps);
      UnitWeightCount(ps[1..]);
    }
  }

  /** Σ (x − mx)². */
  function SumSquaredDeviations(ps: seq<Point>, mx: real): real
  {
    if ps == [] then 0.0 else Sq(ps[0].c - mx) + SumSquaredDeviations(ps[1..], mx)
  }

  /** Σ (x − mx)·(y − my). */
  function SumCrossDeviations(ps: seq<Point>, mx: real, my: real): real
  {
    if ps == [] then 0.0 else (ps[0].c - mx) * (ps[0].a - my) + SumCrossDeviations(ps[1..], mx, my)
  }

  lemma {:induction false} SumSquaredDeviationsIsQuadForm(ps: seq<Point>, mx: real)
    requires UnitWeights(ps)
    ensures SumSquaredDeviations(ps, mx) == QuadForm(MomentsOf(ps), -mx, 1.0)
  {
    if ps != [] {
      var p := ps[0];
      UnitWeightsTail(ps);
      SumSquaredDeviationsIsQuadForm(ps[1..], mx);
      QuadFormPoint(p, -mx, 1.0);
      QuadFormPlus(PointMoments(p), MomentsOf(ps[1..]), -mx, 1.0);
      assert Lin(p, -mx, 1.0) == p.c - mx;
    }
  }

  /** Σ w·(x − mx)·(y − my) expanded through the moments. */
  function CrossForm(m: Moments, mx: real, my: real): real
  {
    m.wca - my * m.wc - mx * m.wa + mx * my * m.w
  }

  lemma CrossFormPlus(m: Moments, n: Moments, mx: real, my: real)
    ensures CrossForm(m.Plus(n), mx, my) == CrossForm(m, mx, my) + CrossForm(n, mx, my)
  {
  }

  lemma CrossFormPoint(p: Point, mx: real, my: real)
    requires p.w == 1.0
    ensures (p.c - mx) * (p.a - my) == CrossForm(PointMoments(p), mx, my)
  {
  }

  lemma {:induction false} SumCrossDeviationsIsCrossForm(ps: seq<Point>, mx: real, my: real)
    requires UnitWeights(ps)
    ensures SumCrossDeviations(ps, mx, my) == CrossForm(MomentsOf(ps), mx, my)
  {
    if ps != [] {
      UnitWeightsTail(ps);
      SumCrossDeviationsIsCrossForm(ps[1..], mx, my);
      CrossFormPoint(ps[0], mx, my);
      CrossSumStep(SumCrossDeviations(ps, mx, my), (ps[0].c - mx) * (ps[0].a - my), SumCrossDeviations(ps[1..], mx, my),
        PointMoments(ps[0]), MomentsOf(ps[1..]), mx, my);
    }
  }

  lemma CrossSumStep(total: real, head: real, rest: real, m: Moments, n: Moments, mx: real, my: real)
    requires total == head + rest && head == CrossForm(m, mx, my) && rest == CrossForm(n, mx, my)
    ensures total == CrossForm(m.Plus(n), mx, my)
  {
    CrossFormPlus(m, n, mx, my);
  }

  /** x̄ = Σx / n. */
  function MeanX(ps: seq<Point>): real
    requires ps != []
  {
    MomentsOf(ps).wc / |ps| as real
  }

  /** ȳ = Σy / n. */
  function MeanY(ps: seq<Point>): real
    requires ps != []
  {
    MomentsOf(ps).wa / |ps| as real
  }

  /** Σ (x − x̄)². */
  function Sxx(ps: seq<Point>): real
    requires ps != []
  {
    SumSquaredDeviations(ps, MeanX(ps))
  }

  /** Σ (x − x̄)·(y − ȳ). */
  function Sxy(ps: seq<Point>): real
    requires ps != []
  {
    SumCrossDeviations(ps, MeanX(ps), MeanY(ps))
  }

  lemma CentredSquares(m: Moments, mx: real)
    requires m.w != 0.0 && mx == m.wc / m.w
    ensures m.w * QuadForm(m, -mx, 1.0) == Det(m)
  {
    assert mx * m.w == m.wc;
  }

  lemma CentredProducts(m: Moments, mx: real, my: real)
    requires m.w != 0.0 && mx == m.wc / m.w && my == m.wa / m.w
    ensures m.w * CrossForm(m, mx, my) == m.w * m.wca - m.wc * m.wa
  {
    assert mx * m.w == m.wc;
    assert my * m.w == m.wa;
  }

  /** With unit weights Σw = n, and n·Σ(x − x̄)² is the determinant of the normal equations. */
  lemma SxxIsDet(ps: seq<Point>)
    requires UnitWeights(ps) && ps != []
    ensures MomentsOf(ps).w == |ps| as real
    ensures MomentsOf(ps).w * Sxx(ps) == Det(MomentsOf(ps))
  {
    UnitWeightCount(ps);
    SumSquaredDeviationsIsQuadForm(ps, MeanX(ps));
    CentredSquares(MomentsOf(ps), MeanX(ps));
  }

  /** n·Σ(x − x̄)(y − ȳ) is the numerator of Cramer's rule for the slope. */
  lemma SxyIsNumerator(ps: seq<Point>)
    requires UnitWeights(ps) && ps != []
    ensures MomentsOf(ps).w * Sxy(ps) == MomentsOf(ps).w * MomentsOf(ps).wca - MomentsOf(ps).wc * MomentsOf(ps).wa
  {
    UnitWeightCount(ps);
    SumCrossDeviationsIsCrossForm(ps, MeanX(ps), MeanY(ps));
    CentredProducts(MomentsOf(ps), MeanX(ps), MeanY(ps));
  }

  lemma ScaledQuotient(num: real, den: real, n: real)
    requires den != 0.0 && n != 0.0
    ensures (n * num) / (n * den) == num / den
  {
  }

  lemma InterceptFromMeans(n: real, wa: real, wc: real, s: real)
    requires n != 0.0
    ensures wa / n - s * (wc / n) == (wa - s * wc) / n
  {
  }

  lemma NonZeroProduct(x: real, y: real)
    requires x != 0.0 && y != 0.0
    ensures x * y != 0.0
  {
  }

  /** What the centred sums say about the moments of unit-weight points with two distinct x. */
  predicate Centred(m: Moments, sxx: real, sxy: real, mx: real, my: real)
  {
    && m.w != 0.0 && sxx != 0.0 && mx == m.wc / m.w && my == m.wa / m.w
    && m.w * sxx == Det(m) && m.w * sxy == m.w * m.wca - m.wc * m.wa
  }

  /** The centred slope and intercept, rewritten over the moments, are Cramer's rule and back-substitution. */
  lemma CentredAlgebra(m: Moments, sxx: real, sxy: real, mx: real, my: real)
    requires Centred(m, sxx, sxy, mx, my)
    ensures NormalEquations(m, my - sxy / sxx * mx, sxy / sxx)
  {
    CentredSolution(m.w, m.wc, m.wcc, m.wa, m.wca, Det(m), sxx, sxy, mx, my);
  }

  lemma CentredSolution(w: real, wc: real, wcc: real, wa: real, wca: real, det: real,
                        sxx: real, sxy: real, mx: real, my: real)
    requires w != 0.0 && sxx != 0.0 && mx == wc / w && my == wa / w
    requires det == w * wcc - wc * wc && w * sxx == det && w * sxy == w * wca - wc * wa
    ensures w * (my - sxy / sxx * mx) + wc * (sxy / sxx) == wa
    ensures wc * (my - sxy / sxx * mx) + wcc * (sxy / sxx) == wca
  {
    var b1 := sxy / sxx;
    NonZeroProduct(w, sxx);
    ScaledQuotient(sxy, sxx, w);
    assert b1 == (w * wca - wc * wa) / det;
    InterceptFromMeans(w, wa, wc, b1);
    assert my - b1 * mx == (wa - b1 * wc) / w;
    SolveByElimination(w, wc, wcc, wa, wca, det, my - b1 * mx, b1);
  }

  lemma CentredSums(ps: seq<Point>)
    requires UnitWeights(ps) && ps != [] && Sxx(ps) != 0.0
    ensures Centred(MomentsOf(ps), Sxx(ps), Sxy(ps), MeanX(ps), MeanY(ps))
  {
    SxxIsDet(ps);
    SxyIsNumerator(ps);
  }

  lemma CentredLineSolves(ps: seq<Point>)
    requires UnitWeights(ps) && ps != [] && Sxx(ps) != 0.0
    ensures NormalEquations(MomentsOf(ps), MeanY(ps) - Sxy(ps) / Sxx(ps) * MeanX(ps), Sxy(ps) / Sxx(ps))
  {
    CentredSums(ps);
    CentredAlgebra(MomentsOf(ps), Sxx(ps), Sxy(ps), MeanX(ps), MeanY(ps));
  }

  /** Σ(x − x̄)² vanishes exactly when every x is the same. */
  lemma SxxZeroIffOneX(ps: seq<Point>)
    requires UnitWeights(ps) && ps != []
    ensures Sxx(ps) == 0.0 <==> AllSameConcentration(ps)
  {
    SxxIsDet(ps);
    UnitWeightsPositive(ps);
    SingularIffOneConcentration(ps);
    ProductSign(MomentsOf(ps).w, Sxx(ps));
  }

  /** (slope, intercept) = (Σ(x−x̄)(y−ȳ)/Σ(x−x̄)², ȳ − slope·x̄): a solution of the normal equations. */
  function CentredLine(ps: seq<Point>): (r: (real, real))
    requires UnitWeights(ps) && ps != [] && Sxx(ps) != 0.0
    ensures NormalEquations(MomentsOf(ps), r.1, r.0)
  {
    CentredLineSolves(ps);
    (Sxy(ps) / Sxx(ps), MeanY(ps) - Sxy(ps) / Sxx(ps) * MeanX(ps))
  }

  /**
   * `linregress(x, y)` as (slope, intercept), None where Σ(x − x̄)² = 0. It is
   * the least-squares line: it solves the normal equations, and it exists
   * exactly when there are at least two distinct x.
   */
  function Linregress(ps: seq<Point>): (r: Option<(real, real)>)
    requires UnitWeights(ps)
    ensures r.None? <==> ps == [] || AllSameConcentration(ps)
    ensures r.Some? ==> NormalEquations(MomentsOf(ps), r.value.1, r.value.0)
  {
    if ps == [] then None
    else
      SxxZeroIffOneX(ps);
      if Sxx(ps) == 0.0 then None else Some(CentredLine(ps))
  }

  /** The OLS line minimises the sum of squared residuals among all lines. */
  lemma LinregressMinimises(ps: seq<Point>, b0: real, b1: real)
    requires UnitWeights(ps) && Linregress(ps).Some?
    ensures Ssr(ps, Linregress(ps).value.1, Linregress(ps).value.0) <= Ssr(ps, b0, b1)
  {
    UnitWeightsPositive(ps);
    NormalEquationsMinimise(ps, Linregress(ps).value.1, Linregress(ps).value.0, b0, b1);
  }

  /** Points lying exactly on a line with two distinct x give that line back. */
  lemma LinregressExact(ps: seq<Point>, b0: real, b1: real)
    requires UnitWeights(ps) && OnLine(ps, b0, b1) && ps != [] && !AllSameConcentration(ps)
    ensures Linregress(ps) == Some((b1, b0))
  {
    var m := MomentsOf(ps);
    UnitWeightsPositive(ps);
    SingularIffOneConcentration(ps);
    LineMoments(ps, b0, b1);
    var r := Linregress(ps).value;
    NormalEquationsUnique(m, r.1, r.0, b0, b1);
  }

  /** Σ (y − b0 − b1·x). */
  function SumResiduals(ps: seq<Point>, b0: real, b1: real): real
  {
    if ps == [] then 0.0 else Resid(ps[0], b0, b1) + SumResiduals(ps[1..], b0, b1)
  }

  /** The residual total a line leaves, read off the moments of unit-weight points. */
  predicate ResidualTotal(r: real, m: Moments, b0: real, b1: real)
  {
    r == m.wa - b0 * m.w - b1 * m.wc
  }

  lemma PointResidual(p: Point, b0: real, b1: real)
    requires p.w == 1.0
    ensures ResidualTotal(Resid(p, b0, b1), PointMoments(p), b0, b1)
  {
  }

  lemma PlusResidual(r: real, m: Moments, s: real, n: Moments, b0: real, b1: real)
    requires ResidualTotal(r, m, b0, b1) && ResidualTotal(s, n, b0, b1)
    ensures ResidualTotal(r + s, m.Plus(n), b0, b1)
  {
  }

  lemma {:induction false} SumResidualsMoments(ps: seq<Point>, b0: real, b1: real)
    requires UnitWeights(ps)
    ensures ResidualTotal(SumResiduals(ps, b0, b1), MomentsOf(ps), b0, b1)
  {
    if ps != [] {
      UnitWeightsTail(ps);
      SumResidualsMoments(ps[1..], b0, b1);
      assert ps[0].w == 1.0;
      PointResidual(ps[0], b0, b1);
      PlusResidual(Resid(ps[0], b0, b1), PointMoments(ps[0]), SumResiduals(ps[1..], b0, b1), MomentsOf(ps[1..]), b0, b1);
    }
  }

  /** The retention times' departures from the OLS line sum to zero. */
  lemma LinregressResidualsCancel(ps: seq<Point>)
    requires UnitWeights(ps) && Linregress(ps).Some?
    ensures SumResiduals(ps, Linregress(ps).value.1, Linregress(ps).value.0) == 0.0
  {
    var b0, b1 := Linregress(ps).value.1, Linregress(ps).value.0;
    SumResidualsMoments(ps, b0, b1);
    BalancedResidualZero(SumResiduals(ps, b0, b1), MomentsOf(ps), b0, b1);
  }

  lemma BalancedResidualZero(r: real, m: Moments, b0: real, b1: real)
    requires ResidualTotal(r, m, b0, b1) && NormalEquations(m, b0, b1)
    ensures r == 0.0
  {
  }

  // ---------------------------------------------------------------------------
  // retention_deviation (qc_hplc.py:8-18)

  /** `(tip − expected_tip) / expected_tip` in floating point. */
  function RelativeDeviation(tip: real, expected: real): (r: Value)
    ensures r.Fin? <==> expected != 0.0
    ensures expected == 0.0 ==> (r == NaN <==> tip == 0.0)
    ensures tip == expected ==> r == Fin(0.0) || r == NaN
  {
    Div(Sub(Fin(tip), Fin(expected)), Fin(expected))
  }

  /** A finite deviation d says tip = expected·(1 + d). */
  lemma RelativeDeviationScales(tip: real, expected: real)
    requires expected != 0.0
    ensures RelativeDeviation(tip, expected).r * expected == tip - expected
  {
    assert RelativeDeviation(tip, expected) == Fin((tip - expected) / expected);
  }

  /** The regression points of the usable peaks: x = retention constant, y = retention time. */
  function RetentionPoints(js: seq<Joined>): (ps: seq<Point>)
    requires forall i | 0 <= i < |js| :: js[i].retentionConstant.Fin? && js[i].peak.tip.Fin?
    ensures |ps| == |js| && UnitWeights(ps)
    ensures forall i | 0 <= i < |js| ::
      ps[i].c == js[i].retentionConstant.r && ps[i].a == js[i].peak.tip.r
  {
    seq(|js|, i requires 0 <= i < |js| => Point(js[i].retentionConstant.r, js[i].peak.tip.r, 1.0))
  }

  predicate AllFinite(js: seq<Joined>)
  {
    forall i | 0 <= i < |js| :: js[i].retentionConstant.Fin? && js[i].peak.tip.Fin?
  }

  /**
   * The retention deviation of each usable peak of one run, in order. No
   * usable peak gives no row. A run whose line is undefined (one distinct
   * retention constant, or an infinity in the data, which makes every
   * linregress output NaN) gives NaN for every peak.
   */
  function RetentionDeviation(js: seq<Joined>): (r: seq<(Joined, Value)>)
    ensures |r| == |UsableOnly(js)|
    ensures forall i | 0 <= i < |r| :: r[i].0 == UsableOnly(js)[i]
  {
    KeptDeviations(UsableOnly(js))
  }

  /** The deviations of the peaks left after `dropna`. */
  function KeptDeviations(kept: seq<Joined>): (r: seq<(Joined, Value)>)
    ensures |r| == |kept|
    ensures forall i | 0 <= i < |r| :: r[i].0 == kept[i]
  {
    if kept == [] then []
    else if !AllFinite(kept) then NoDeviations(kept)
    else
      match Linregress(RetentionPoints(kept))
      case None => NoDeviations(kept)
      case Some(line) => DeviationsFrom(kept, line)
  }

  /** `retention_constant * slope + intercept` for `line` = (slope, intercept). */
  function ExpectedTip(constant: real, line: (real, real)): real
  {
    constant * line.0 + line.1
  }

  /** Every peak paired with NaN. */
  function NoDeviations(kept: seq<Joined>): (r: seq<(Joined, Value)>)
    ensures |r| == |kept|
    ensures forall i | 0 <= i < |kept| :: r[i] == (kept[i], NaN)
  {
    seq(|kept|, i requires 0 <= i < |kept| => (kept[i], NaN))
  }

  /** Every peak paired with its relative deviation from `line` = (slope, intercept). */
  function DeviationsFrom(kept: seq<Joined>, line: (real, real)): (r: seq<(Joined, Value)>)
    requires AllFinite(kept)
    ensures |r| == |kept|
    ensures forall i | 0 <= i < |kept| :: r[i].0 == kept[i]
    ensures forall i | 0 <= i < |kept| ::
      r[i].1 == RelativeDeviation(kept[i].peak.tip.r, ExpectedTip(kept[i].retentionConstant.r, line))
  {
    seq(|kept|, i requires 0 <= i < |kept| =>
      (kept[i], RelativeDeviation(kept[i].peak.tip.r, ExpectedTip(kept[i].retentionConstant.r, line))))
  }

  /** A run with no usable peak produces no deviation at all, in particular no 0. */
  lemma {:induction false} NoUsablePeakNoDeviation(js: seq<Joined>)
    requires forall i | 0 <= i < |js| :: !Usable(js[i])
    ensures RetentionDeviation(js) == []
  {
    if js != [] {
      assert forall i | 0 <= i < |js[1..]| :: js[1..][i] == js[i + 1];
      NoUsablePeakNoDeviation(js[1..]);
    }
  }

  /** A run with a single usable peak has no line to compare it with: its deviation is NaN. */
  lemma SinglePeakIsNaN(js: seq<Joined>)
    requires |UsableOnly(js)| == 1
    ensures RetentionDeviation(js) == [(UsableOnly(js)[0], NaN)]
  {
    SingleKeptIsNaN(UsableOnly(js));
  }

  lemma SingleKeptIsNaN(kept: seq<Joined>)
    requires |kept| == 1
    ensures KeptDeviations(kept) == [(kept[0], NaN)]
  {
    if AllFinite(kept) {
      var ps := RetentionPoints(kept);
      assert AllSameConcentration(ps);
      assert Linregress(ps).None?;
    }
  }

  /**
   * Where the line is defined, all peaks of the run are measured against the
   * same line, and that line is the least-squares line of the run.
   */
  lemma DeviationsShareLeastSquaresLine(js: seq<Joined>)
    requires AllFinite(UsableOnly(js))
    requires Linregress(RetentionPoints(UsableOnly(js))).Some?
    ensures
      var ps := RetentionPoints(UsableOnly(js));
      var line := Linregress(ps).value;
      && |RetentionDeviation(js)| == |ps|
      && (forall b0: real, b1: real :: Ssr(ps, line.1, line.0) <= Ssr(ps, b0, b1))
      && (forall i | 0 <= i < |ps| ::
            RetentionDeviation(js)[i].1 == RelativeDeviation(ps[i].a, ExpectedTip(ps[i].c, line)))
  {
    KeptPointwise(UsableOnly(js));
    LinregressMinimisesAll(RetentionPoints(UsableOnly(js)));
  }

  lemma KeptPointwise(kept: seq<Joined>)
    requires AllFinite(kept)
    requires Linregress(RetentionPoints(kept)).Some?
    ensures |KeptDeviations(kept)| == |RetentionPoints(kept)|
    ensures forall i | 0 <= i < |kept| ::
      KeptDeviations(kept)[i].1
        == RelativeDeviation(RetentionPoints(kept)[i].a, ExpectedTip(RetentionPoints(kept)[i].c, Linregress(RetentionPoints(kept)).value))
  {
    KeptMeasuredAgainst(kept);
  }

  lemma KeptMeasuredAgainst(kept: seq<Joined>)
    requires AllFinite(kept)
    requires Linregress(RetentionPoints(kept)).Some?
    ensures KeptDeviations(kept) == DeviationsFrom(kept, Linregress(RetentionPoints(kept)).value)
  {
  }

  lemma LinregressMinimisesAll(ps: seq<Point>)
    requires UnitWeights(ps) && Linregress(ps).Some?
    ensures forall b0: real, b1: real :: Ssr(ps, Linregress(ps).value.1, Linregress(ps).value.0) <= Ssr(ps, b0, b1)
  {
    forall b0: real, b1: real ensures Ssr(ps, Linregress(ps).value.1, Linregress(ps).value.0) <= Ssr(ps, b0, b1) {
      LinregressMinimises(ps, b0, b1);
    }
  }

  lemma ExpectedOnLine(p: Point, b0: real, b1: real)
    requires Resid(p, b0, b1) == 0.0
    ensures p.a == ExpectedTip(p.c, (b1, b0))
  {
  }

  /** Retention times lying exactly on a line of the constants deviate by 0 (or 0/0 where the line is 0). */
  lemma ExactRetentionNoDeviation(js: seq<Joined>, b0: real, b1: real)
    requires AllFinite(UsableOnly(js))
    requires
      var ps := RetentionPoints(UsableOnly(js));
      ps != [] && OnLine(ps, b0, b1) && !AllSameConcentration(ps)
    ensures forall i | 0 <= i < |RetentionDeviation(js)| ::
      RetentionDeviation(js)[i].1 == Fin(0.0) || RetentionDeviation(js)[i].1 == NaN
  {
    var kept := UsableOnly(js);
    var ps := RetentionPoints(kept);
    LinregressExact(ps, b0, b1);
    KeptMeasuredAgainst(kept);
    TipsOnLine(kept, b0, b1);
  }

  lemma TipsOnLine(kept: seq<Joined>, b0: real, b1: real)
    requires AllFinite(kept) && OnLine(RetentionPoints(kept), b0, b1)
    ensures forall i | 0 <= i < |kept| ::
      kept[i].peak.tip.r == ExpectedTip(kept[i].retentionConstant.r, (b1, b0))
  {
    var ps := RetentionPoints(kept);
    forall i | 0 <= i < |kept|
      ensures kept[i].peak.tip.r == ExpectedTip(kept[i].retentionConstant.r, (b1, b0))
    {
      ExpectedOnLine(ps[i], b0, b1);
    }
  }

  // ---------------------------------------------------------------------------
  // Plate counts (qc_hplc.py:29-31)

  /** The value of `math.pi`. */
  const Pi: real := 3.141592653589793

  /**
   * plates_hph = 5.54·(tip / width_50)², with +inf replaced by NaN. It is
   * never infinite, never negative, and NaN for a zero width.
   */
  function PlatesHph(tip: Value, width50: Value): (r: Value)
    ensures r.Fin? ==> r.r >= 0.0
    ensures !r.Inf?
    ensures width50 == Fin(0.0) ==> r == NaN
    ensures tip.Fin? && width50.Fin? && width50.r != 0.0 ==>
      r.Fin? && r.r == 5.54 * Sq(tip.r / width50.r)
  {
    ReplacePosInf(Mul(Fin(5.54), Square(Div(tip, width50))))
  }

  /**
   * plates_ah = 2π·(tip·height / area)², with no infinity replacement: a
   * zero area under a non-zero finite tip·height stays +inf.
   */
  function PlatesAh(tip: Value, height: Value, area: Value): (r: Value)
    ensures r.Fin? ==> r.r >= 0.0
    ensures r != Inf(true)
    ensures area == Fin(0.0) && tip.Fin? && height.Fin? && tip.r * height.r != 0.0 ==> r == Inf(false)
    ensures tip.Fin? && height.Fin? && area.Fin? && area.r != 0.0 ==>
      r.Fin? && r.r == 2.0 * Pi * Sq(tip.r * height.r / area.r)
  {
    Mul(Fin(2.0 * Pi), Square(Div(Mul(tip, height), area)))
  }

  /**
   * The two column assignments of `main` (qc_hplc.py:29-31): plates_hph is
   * computed, then its +inf cells are replaced in place; plates_ah is
   * assigned as computed.
   */
  method PlateColumns(peaks: seq<Peak>) returns (hph: array<Value>, ah: array<Value>)
    ensures fresh(hph) && fresh(ah) && hph.Length == |peaks| && ah.Length == |peaks|
    ensures forall i | 0 <= i < |peaks| :: hph[i] == PlatesHph(peaks[i].tip, peaks[i].width50)
    ensures forall i | 0 <= i < |peaks| :: ah[i] == PlatesAh(peaks[i].tip, peaks[i].height, peaks[i].area)
  {
    hph := new Value[|peaks|](i requires 0 <= i < |peaks| => Mul(Fin(5.54), Square(Div(peaks[i].tip, peaks[i].width50))));
    ReplacePosInfColumn(hph);
    ah := new Value[|peaks|](i requires 0 <= i < |peaks| => PlatesAh(peaks[i].tip, peaks[i].height, peaks[i].area));
  }

  // ---------------------------------------------------------------------------
  // main (qc_hplc.py:21-36)

  /** The peaks of one run, joined with their retention constants, in table order. */
  function RunPeaks(peaks: seq<Peak>, constants: map<string, Value>, run: RunKey): (js: seq<Joined>)
    ensures |js| <= |peaks|
    ensures forall i | 0 <= i < |js| :: RunOf(js[i].peak) == run && js[i].peak in peaks
    ensures forall i | 0 <= i < |js| :: js[i] == JoinConstant(constants, js[i].peak)
    ensures forall i | 0 <= i < |peaks| :: RunOf(peaks[i]) == run ==> JoinConstant(constants, peaks[i]) in js
  {
    if peaks == [] then []
    else
      var rest := RunPeaks(peaks[1..], constants, run);
      assert forall i | 1 <= i < |peaks| :: peaks[i] == peaks[1..][i - 1];
      if RunOf(peaks[0]) == run then [JoinConstant(constants, peaks[0])] + rest else rest
  }

  /** Selecting a run distributes over concatenation: the run's peaks keep the table's order. */
  lemma {:induction false} RunPeaksAppend(a: seq<Peak>, b: seq<Peak>, constants: map<string, Value>, run: RunKey)
    ensures RunPeaks(a + b, constants, run) == RunPeaks(a, constants, run) + RunPeaks(b, constants, run)
  {
    if a == [] {
      assert a + b == b;
    } else {
      assert (a + b)[0] == a[0] && (a + b)[1..] == a[1..] + b;
      RunPeaksAppend(a[1..], b, constants, run);
    }
  }

  function QcRowOf(j: Joined, deviation: Value): QcRow
  {
    var p := j.peak;
    QcRow(p.injectionId, p.moleculeId, p.channel, deviation,
          PlatesHph(p.tip, p.width50), PlatesAh(p.tip, p.height, p.area))
  }

  /**
   * The output table for the runs in the order the grouping yields them:
   * each run's usable peaks with their deviation and plate counts.
   */
  function QcTable(peaks: seq<Peak>, constants: map<string, Value>, runs: seq<RunKey>): (t: seq<QcRow>)
    ensures forall k | 0 <= k < |t| :: t[k].platesHph.Fin? ==> t[k].platesHph.r >= 0.0
    ensures forall k | 0 <= k < |t| :: !t[k].platesHph.Inf?
    ensures forall k | 0 <= k < |t| :: t[k].platesAh.Fin? ==> t[k].platesAh.r >= 0.0
    ensures forall k | 0 <= k < |t| :: RunKey(t[k].injectionId, t[k].channel) in runs
  {
    if runs == [] then []
    else RunRows(peaks, constants, runs[0]) + QcTable(peaks, constants, runs[1..])
  }

  /** The table of two lists of runs is the first list's rows followed by the second's. */
  lemma {:induction false} QcTableAppend(peaks: seq<Peak>, constants: map<string, Value>, r1: seq<RunKey>, r2: seq<RunKey>)
    ensures QcTable(peaks, constants, r1 + r2) == QcTable(peaks, constants, r1) + QcTable(peaks, constants, r2)
  {
    if r1 == [] {
      assert r1 + r2 == r2;
    } else {
      assert (r1 + r2)[0] == r1[0] && (r1 + r2)[1..] == r1[1..] + r2;
      QcTableAppend(peaks, constants, r1[1..], r2);
    }
  }

  /**
   * The rows of one run: plates_hph is never infinite, neither count is
   * negative, and every row names the run.
   */
  predicate RowOfRun(row: QcRow, run: RunKey)
  {
    && (row.platesHph.Fin? ==> row.platesHph.r >= 0.0)
    && !row.platesHph.Inf?
    && (row.platesAh.Fin? ==> row.platesAh.r >= 0.0)
    && RunKey(row.injectionId, row.channel) == run
  }

  /**
   * The output rows of one run, one per usable peak in table order: row i
   * carries peak i's key, its retention deviation and its own plate counts.
   */
  function RunRows(peaks: seq<Peak>, constants: map<string, Value>, run: RunKey): (rows: seq<QcRow>)
    ensures |rows| == |UsableOnly(RunPeaks(peaks, constants, run))|
    ensures forall i | 0 <= i < |rows| :: RowOfRun(rows[i], run)
  {
    var devs := RetentionDeviation(RunPeaks(peaks, constants, run));
    assert forall i | 0 <= i < |devs| :: devs[i].0 in RunPeaks(peaks, constants, run);
    seq(|devs|, i requires 0 <= i < |devs| => QcRowOf(devs[i].0, devs[i].1))
  }

  /**
   * Row i of a run is its i-th usable peak, in table order: that peak's key,
   * the i-th retention deviation of the run and the peak's own plate counts.
   */
  lemma RunRowsExact(peaks: seq<Peak>, constants: map<string, Value>, run: RunKey)
    ensures var rows := RunRows(peaks, constants, run);
      var kept := UsableOnly(RunPeaks(peaks, constants, run));
      var devs := RetentionDeviation(RunPeaks(peaks, constants, run));
      && |rows| == |devs| == |kept|
      && forall i | 0 <= i < |rows| ::
           && devs[i].0 == kept[i]
           && rows[i] == QcRowOf(kept[i], devs[i].1)
           && rows[i].retentionDeviation == devs[i].1
           && rows[i].moleculeId == kept[i].peak.moleculeId
           && rows[i].platesHph == PlatesHph(kept[i].peak.tip, kept[i].peak.width50)
           && rows[i].platesAh == PlatesAh(kept[i].peak.tip, kept[i].peak.height, kept[i].peak.area)
  {
  }

  // ---------------------------------------------------------------------------
  // Every usable peak has its row

  /** The run keys the grouping yields: each once, and every peak's run among them. */
  predicate RunKeysOf(peaks: seq<Peak>, runs: seq<RunKey>)
  {
    && (forall i, j | 0 <= i < j < |runs| :: runs[i] != runs[j])
    && (forall i | 0 <= i < |peaks| :: RunOf(peaks[i]) in runs)
  }

  /** A usable peak of a run has its row, with its own key and plate counts, in the run's rows. */
  lemma PeakHasRunRow(peaks: seq<Peak>, constants: map<string, Value>, p: Peak)
    requires p in peaks && Usable(JoinConstant(constants, p))
    ensures exists k | 0 <= k < |RunRows(peaks, constants, RunOf(p))| ::
      RunRows(peaks, constants, RunOf(p))[k] == QcRowOf(JoinConstant(constants, p), RunRows(peaks, constants, RunOf(p))[k].retentionDeviation)
  {
    var j := JoinConstant(constants, p);
    var js := RunPeaks(peaks, constants, RunOf(p));
    var i :| 0 <= i < |peaks| && peaks[i] == p;
    assert j in js;
    var k :| 0 <= k < |js| && js[k] == j;
    assert j in UsableOnly(js);
    var m :| 0 <= m < |UsableOnly(js)| && UsableOnly(js)[m] == j;
    var rows := RunRows(peaks, constants, RunOf(p));
    RunRowsExact(peaks, constants, RunOf(p));
    assert rows[m] == QcRowOf(j, rows[m].retentionDeviation);
  }

  /** Every usable peak of a run in `runs` has its row in the table. */
  lemma {:induction false} QcTableComplete(peaks: seq<Peak>, constants: map<string, Value>, runs: seq<RunKey>, p: Peak)
    requires p in peaks && Usable(JoinConstant(constants, p)) && RunOf(p) in runs
    ensures exists k | 0 <= k < |QcTable(peaks, constants, runs)| ::
      QcTable(peaks, constants, runs)[k] == QcRowOf(JoinConstant(constants, p), QcTable(peaks, constants, runs)[k].retentionDeviation)
  {
    var t := QcTable(peaks, constants, runs);
    var head := RunRows(peaks, constants, runs[0]);
    var tail := QcTable(peaks, constants, runs[1..]);
    assert t == head + tail;
    if runs[0] == RunOf(p) {
      PeakHasRunRow(peaks, constants, p);
      var k :| 0 <= k < |head| && head[k] == QcRowOf(JoinConstant(constants, p), head[k].retentionDeviation);
      assert t[k] == head[k];
    } else {
      assert RunOf(p) in runs[1..];
      QcTableComplete(peaks, constants, runs[1..], p);
      var k :| 0 <= k < |tail| && tail[k] == QcRowOf(JoinConstant(constants, p), tail[k].retentionDeviation);
      assert t[|head| + k] == tail[k];
    }
  }

  /** The number of peaks that take part in a retention fit. */
  function CountUsable(peaks: seq<Peak>, constants: map<string, Value>): nat
  {
    if peaks == [] then 0
    else (if Usable(JoinConstant(constants, peaks[0])) then 1 else 0) + CountUsable(peaks[1..], constants)
  }

  /** Σ over the runs of the number of usable peaks of each run. */
  function RowCount(peaks: seq<Peak>, constants: map<string, Value>, runs: seq<RunKey>): nat
  {
    if runs == [] then 0
    else |UsableOnly(RunPeaks(peaks, constants, runs[0]))| + RowCount(peaks, constants, runs[1..])
  }

  lemma {:induction false} QcTableRowCount(peaks: seq<Peak>, constants: map<string, Value>, runs: seq<RunKey>)
    ensures |QcTable(peaks, constants, runs)| == RowCount(peaks, constants, runs)
  {
    if runs != [] {
      QcTableRowCount(peaks, constants, runs[1..]);
    }
  }

  /** 1 when the peak is usable and belongs to the run, else 0. */
  function Hit(p: Peak, constants: map<string, Value>, run: RunKey): nat
  {
    if RunOf(p) == run && Usable(JoinConstant(constants, p)) then 1 else 0
  }

  /** Σ over the runs of `Hit`. */
  function Hits(p: Peak, constants: map<string, Value>, runs: seq<RunKey>): nat
  {
    if runs == [] then 0 else Hit(p, constants, runs[0]) + Hits(p, constants, runs[1..])
  }

  lemma {:induction false} RunCountStep(peaks: seq<Peak>, constants: map<string, Value>, run: RunKey)
    requires peaks != []
    ensures |UsableOnly(RunPeaks(peaks, constants, run))|
      == Hit(peaks[0], constants, run) + |UsableOnly(RunPeaks(peaks[1..], constants, run))|
  {
    var rest := RunPeaks(peaks[1..], constants, run);
    if RunOf(peaks[0]) == run {
      var j := JoinConstant(constants, peaks[0]);
      assert RunPeaks(peaks, constants, run) == [j] + rest;
      assert ([j] + rest)[1..] == rest;
    }
  }

  lemma {:induction false} RowCountStep(peaks: seq<Peak>, constants: map<string, Value>, runs: seq<RunKey>)
    requires peaks != []
    ensures RowCount(peaks, constants, runs) == Hits(peaks[0], constants, runs) + RowCount(peaks[1..], constants, runs)
  {
    if runs != [] {
      RunCountStep(peaks, constants, runs[0]);
      RowCountStep(peaks, constants, runs[1..]);
    }
  }

  lemma {:induction false} HitsOnce(p: Peak, constants: map<string, Value>, runs: seq<RunKey>)
    requires forall i, j | 0 <= i < j < |runs| :: runs[i] != runs[j]
    ensures Hits(p, constants, runs) == if RunOf(p) in runs && Usable(JoinConstant(constants, p)) then 1 else 0
  {
    if runs != [] {
      HitsOnce(p, constants, runs[1..]);
      if runs[0] == RunOf(p) {
        assert RunOf(p) !in runs[1..] by {
          forall j | 0 <= j < |runs[1..]| ensures runs[1..][j] != runs[0] {
            assert runs[1..][j] == runs[j + 1];
          }
        }
      }
    }
  }

  lemma {:induction false} RowCountNoPeaks(constants: map<string, Value>, runs: seq<RunKey>)
    ensures RowCount([], constants, runs) == 0
  {
    if runs != [] {
      RowCountNoPeaks(constants, runs[1..]);
    }
  }

  lemma {:induction false} RowCountIsUsableCount(peaks: seq<Peak>, constants: map<string, Value>, runs: seq<RunKey>)
    requires RunKeysOf(peaks, runs)
    ensures RowCount(peaks, constants, runs) == CountUsable(peaks, constants)
  {
    if peaks != [] {
      assert RunOf(peaks[0]) in runs;
      assert forall i | 0 <= i < |peaks[1..]| :: peaks[1..][i] == peaks[i + 1];
      RowCountStep(peaks, constants, runs);
      HitsOnce(peaks[0], constants, runs);
      RowCountIsUsableCount(peaks[1..], constants, runs);
    } else {
      RowCountNoPeaks(constants, runs);
    }
  }

  /**
   * Over the grouping's run keys the table is complete and has no spare row:
   * every usable peak has its row, and there are exactly as many rows as
   * usable peaks.
   */
  lemma QcTableExact(peaks: seq<Peak>, constants: map<string, Value>, runs: seq<RunKey>)
    requires RunKeysOf(peaks, runs)
    ensures |QcTable(peaks, constants, runs)| == CountUsable(peaks, constants)
    ensures forall i | 0 <= i < |peaks| && Usable(JoinConstant(constants, peaks[i])) ::
      exists k | 0 <= k < |QcTable(peaks, constants, runs)| ::
        QcTable(peaks, constants, runs)[k] == QcRowOf(JoinConstant(constants, peaks[i]), QcTable(peaks, constants, runs)[k].retentionDeviation)
  {
    QcTableRowCount(peaks, constants, runs);
    RowCountIsUsableCount(peaks, constants, runs);
    forall i | 0 <= i < |peaks| && Usable(JoinConstant(constants, peaks[i]))
      ensures exists k | 0 <= k < |QcTable(peaks, constants, runs)| ::
        QcTable(peaks, constants, runs)[k] == QcRowOf(JoinConstant(constants, peaks[i]), QcTable(peaks, constants, runs)[k].retentionDeviation)
    {
      QcTableComplete(peaks, constants, runs, peaks[i]);
    }
  }
}
