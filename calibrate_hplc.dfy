/**
 * HPLC calibration (scripts/calibrate_hplc.py): per (molecule, channel,
 * calibration group), a weighted least-squares line of peak area against
 * known concentration, with weights known_concentration^-2, fitted with or
 * without an intercept as the group's policy flag says.
 *
 * The fits are given in closed form over exact reals and characterised by
 * their normal equations; that they minimise the weighted sum of squared
 * residuals is proved. The relative standard error is reported squared.
 */
module Calibration {
  import opened Wrappers
  import opened Floats
  import opened LeastSquares

  /** One standard injection peak: a row of the merged peak/metadata table. */
  datatype Standard = Standard(
    moleculeId: string,
    channel: string,
    calibrationGroup: string,
    knownConcentration: Value,
    area: Value,
    intercept: Value)

  /** The grouping key of `main`. */
  datatype GroupKey = GroupKey(moleculeId: string, channel: string, calibrationGroup: string)

  function KeyOf(s: Standard): GroupKey
  {
    GroupKey(s.moleculeId, s.channel, s.calibrationGroup)
  }

  /** A row that survived the weight/area filter; all of its cells had infinities replaced by NaN. */
  datatype Usable = Usable(concentration: Value, area: real, weight: real, flag: Value)

  /** The output row; `rseSquared` is the square of relative_standard_error. */
  datatype CalibrationRow = CalibrationRow(
    intercept: real,
    slope: real,
    limitOfDetection: Value,
    observations: nat,
    rseSquared: Value,
    rsquared: Value)

  datatype Failure =
    | MixedInterceptPolicy(key: GroupKey)  // the `assert len(_intercept) == 1`
    | FitFailed(key: GroupKey)             // the re-raised ValueError of the fit

  // ---------------------------------------------------------------------------
  // Weighting and filtering (calibrate_hplc.py:19-22)

  /** `known_concentration ** -2` on a float column. */
  function Weight(c: Value): (w: Value)
    ensures c.Fin? && c.r != 0.0 ==> w.Fin? && w.r * Sq(c.r) == 1.0
    ensures c == Fin(0.0) ==> w == Inf(false)
    ensures c.Inf? ==> w == Fin(0.0)
    ensures c.NaN? ==> w.NaN?
  {
    match c
    case Fin(x) => if x == 0.0 then Inf(false) else Fin(1.0 / (x * x))
    case Inf(_) => Fin(0.0)
    case NaN => NaN
  }

  /**
   * The weight column of the copied frame (calibrate_hplc.py:19, 22): the
   * weights are assigned, then the frame-wide replace turns their
   * infinities into NaN in place.
   */
  method WeightColumn(data: seq<Standard>) returns (w: array<Value>)
    ensures fresh(w) && w.Length == |data|
    ensures forall i | 0 <= i < |data| :: w[i] == ReplaceInf(Weight(data[i].knownConcentration))
  {
    w := new Value[|data|](i requires 0 <= i < |data| => Weight(data[i].knownConcentration));
    ReplaceInfColumn(w);
  }

  /** A zero concentration leaves no weight, and an infinite one a zero weight. */
  lemma WeightAfterReplace(c: Value)
    ensures c == Fin(0.0) ==> ReplaceInf(Weight(c)) == NaN
    ensures c.Inf? ==> ReplaceInf(Weight(c)) == Fin(0.0)
    ensures c.Fin? && c.r != 0.0 ==> ReplaceInf(Weight(c)).Fin? && ReplaceInf(Weight(c)).r > 0.0
  {
    if c.Fin? && c.r != 0.0 {
      SquareSign(c.r);
      PositiveFactor(Weight(c).r, Sq(c.r));
    }
  }

  /** Adds the weight, replaces infinities by NaN and drops rows with no weight or no area. */
  function UsableRows(data: seq<Standard>): (rows: seq<Usable>)
    ensures |rows| <= |data|
  {
    if data == [] then []
    else
      var d := data[0];
      var w := ReplaceInf(Weight(d.knownConcentration));
      var a := ReplaceInf(d.area);
      var rest := UsableRows(data[1..]);
      if w.Fin? && a.Fin? then
        [Usable(ReplaceInf(d.knownConcentration), a.r, w.r, ReplaceInf(d.intercept))] + rest
      else rest
  }

  /** A standard is kept exactly when its concentration is non-zero or infinite and its area is finite. */
  predicate Keeps(d: Standard)
  {
    (d.knownConcentration.Inf? || (d.knownConcentration.Fin? && d.knownConcentration.r != 0.0))
    && d.area.Fin?
  }

  function CountKept(data: seq<Standard>): nat
  {
    if data == [] then 0 else (if Keeps(data[0]) then 1 else 0) + CountKept(data[1..])
  }

  lemma {:induction false} UsableRowsCount(data: seq<Standard>)
    ensures |UsableRows(data)| == CountKept(data)
  {
    if data != [] {
      UsableRowsCount(data[1..]);
    }
  }

  /** The regression formula drops rows whose concentration the replace turned into NaN. */
  function FitPoints(rows: seq<Usable>): (ps: seq<Point>)
    ensures |ps| <= |rows|
  {
    if rows == [] then []
    else
      var rest := FitPoints(rows[1..]);
      if rows[0].concentration.Fin? then
        [Point(rows[0].concentration.r, rows[0].area, rows[0].weight)] + rest
      else rest
  }

  lemma {:induction false} FitPointsWeighted(data: seq<Standard>)
    ensures InverseSquareWeighted(FitPoints(UsableRows(data)))
  {
    if data != [] {
      FitPointsWeighted(data[1..]);
      var d := data[0];
      var rest := UsableRows(data[1..]);
      var w := ReplaceInf(Weight(d.knownConcentration));
      var a := ReplaceInf(d.area);
      if w.Fin? && a.Fin? {
        var u := Usable(ReplaceInf(d.knownConcentration), a.r, w.r, ReplaceInf(d.intercept));
        assert UsableRows(data) == [u] + rest;
        assert ([u] + rest)[1..] == rest;
        if u.concentration.Fin? {
          assert d.knownConcentration.Fin? && d.knownConcentration.r != 0.0;
        }
      }
    }
  }

  // ---------------------------------------------------------------------------
  // Intercept policy (calibrate_hplc.py:26-35)

  /** `data.intercept.unique()` as a set. */
  function Flags(rows: seq<Usable>): set<Value>
  {
    set i | 0 <= i < |rows| :: rows[i].flag
  }

  /** `len(unique) == 1` holds exactly when every row carries the first row's flag. */
  lemma SingleFlag(rows: seq<Usable>)
    requires |rows| > 0
    ensures |Flags(rows)| == 1 <==> forall i | 0 <= i < |rows| :: rows[i].flag == rows[0].flag
  {
    var f := rows[0].flag;
    var fs := Flags(rows);
    assert f in fs;
    if forall i | 0 <= i < |rows| :: rows[i].flag == f {
      assert fs == {f};
    }
    if |fs| == 1 {
      assert |fs - {f}| == 0;
      assert fs - {f} == {};
      forall i | 0 <= i < |rows| ensures rows[i].flag == f {
        assert rows[i].flag in fs;
      }
    }
  }

  /** A flag equal to 0 means "no intercept term". */
  predicate ThroughOrigin(flag: Value)
  {
    flag == Fin(0.0)
  }

  // ---------------------------------------------------------------------------
  // The weights c^-2

  /** Every point the fit sees has weight c^-2, hence c != 0 and w > 0. */
  predicate InverseSquareWeighted(ps: seq<Point>)
  {
    forall i | 0 <= i < |ps| :: ps[i].w * Sq(ps[i].c) == 1.0
  }

  lemma InverseSquarePositive(ps: seq<Point>)
    requires InverseSquareWeighted(ps)
    ensures PositiveWeights(ps)
    ensures forall i | 0 <= i < |ps| :: ps[i].c != 0.0
  {
    forall i | 0 <= i < |ps| ensures ps[i].w > 0.0 && ps[i].c != 0.0 {
      SquareSign(ps[i].c);
      PositiveFactor(ps[i].w, Sq(ps[i].c));
    }
  }

  lemma InverseSquareTail(ps: seq<Point>)
    requires InverseSquareWeighted(ps) && ps != []
    ensures InverseSquareWeighted(ps[1..])
  {
    forall i | 0 <= i < |ps[1..]| ensures ps[1..][i].w * Sq(ps[1..][i].c) == 1.0 {
      assert ps[1..][i] == ps[i + 1];
    }
  }

  /** With weights c^-2 the weighted Σw·c² is the number of points. */
  lemma {:induction false} InverseSquareSumWCC(ps: seq<Point>)
    requires InverseSquareWeighted(ps)
    ensures MomentsOf(ps).wcc == |ps| as real
  {
    if ps != [] {
      InverseSquareTail(ps);
      InverseSquareSumWCC(ps[1..]);
      assert ps[0].w * ps[0].c * ps[0].c == ps[0].w * Sq(ps[0].c);
    }
  }

  /** Σ a/c: the sum of the area-to-concentration ratios. */
  function RatioSum(ps: seq<Point>): real
    requires forall i | 0 <= i < |ps| :: ps[i].c != 0.0
  {
    if ps == [] then 0.0 else ps[0].a / ps[0].c + RatioSum(ps[1..])
  }

  /** With weights c^-2, Σw·c·a is the sum of the ratios a/c. */
  lemma {:induction false} InverseSquareSumWCA(ps: seq<Point>)
    requires InverseSquareWeighted(ps)
    ensures forall i | 0 <= i < |ps| :: ps[i].c != 0.0
    ensures MomentsOf(ps).wca == RatioSum(ps)
  {
    InverseSquarePositive(ps);
    if ps != [] {
      var p := ps[0];
      InverseSquareTail(ps);
      InverseSquareSumWCA(ps[1..]);
      assert p.w * Sq(p.c) == 1.0;
      assert p.w * p.c * p.a * p.c == p.w * Sq(p.c) * p.a;
      assert p.w * p.c * p.a == p.a / p.c;
    }
  }

  /** Through the origin with weights c^-2, the slope is the mean of a/c. */
  lemma OriginSlopeIsMeanRatio(ps: seq<Point>)
    requires InverseSquareWeighted(ps) && ps != []
    ensures MomentsOf(ps).wcc != 0.0
    ensures forall i | 0 <= i < |ps| :: ps[i].c != 0.0
    ensures OriginSlope(MomentsOf(ps)) == RatioSum(ps) / |ps| as real
  {
    InverseSquareSumWCC(ps);
    InverseSquareSumWCA(ps);
  }

  // ---------------------------------------------------------------------------
  // Calibration metrics (calibrate_hplc.py:10-14, 47-50)

  /** `np.sum` over a pandas column: NaN terms are skipped. */
  function AddSkipNaN(x: Value, acc: Value): Value
  {
    if x.NaN? then acc else Add(x, acc)
  }

  /** (residual / fitted)² at one point, in floating point: 0/0 is NaN and x/0 infinite. */
  function DeviationRatioSquared(p: Point, b0: real, b1: real): (r: Value)
    ensures r.Fin? ==> r.r >= 0.0
    ensures r.Fin? || r == Inf(false) || r == NaN
    ensures Resid(p, b0, b1) == 0.0 ==> r == Fin(0.0) || r == NaN
  {
    Square(Div(Fin(Resid(p, b0, b1)), Fin(Lin(p, b0, b1))))
  }

  /** Σ (residual / fitted)² over the fitted points, skipping NaN ratios. */
  function RatioSquares(ps: seq<Point>, b0: real, b1: real): (r: Value)
    ensures r.Fin? ==> r.r >= 0.0
    ensures r.Fin? || r == Inf(false)
  {
    if ps == [] then Fin(0.0)
    else AddSkipNaN(DeviationRatioSquared(ps[0], b0, b1), RatioSquares(ps[1..], b0, b1))
  }

  /** relative_standard_error squared: Σ (residual / fitted)² / residual degrees of freedom. */
  function RseSquared(ps: seq<Point>, b0: real, b1: real, df: int): Value
  {
    Div(RatioSquares(ps, b0, b1), Fin(df as real))
  }

  /** A perfect fit has no relative error: every ratio is 0, or 0/0 and skipped. */
  lemma {:induction false} PerfectFitRatios(ps: seq<Point>, b0: real, b1: real)
    requires OnLine(ps, b0, b1)
    ensures RatioSquares(ps, b0, b1) == Fin(0.0)
  {
    if ps != [] {
      OnLineTail(ps, b0, b1);
      PerfectFitRatios(ps[1..], b0, b1);
      assert Resid(ps[0], b0, b1) == 0.0;
    }
  }

  lemma {:induction false} PerfectFitSsr(ps: seq<Point>, b0: real, b1: real)
    requires OnLine(ps, b0, b1)
    ensures Ssr(ps, b0, b1) == 0.0
  {
    if ps != [] {
      OnLineTail(ps, b0, b1);
      PerfectFitSsr(ps[1..], b0, b1);
      assert Resid(ps[0], b0, b1) == 0.0;
    }
  }

  /**
   * statsmodels' R²: 1 − SSR/TSS, the TSS centred on the weighted mean only
   * when the model has a constant: an intercept term, or (through the origin)
   * a concentration column that holds one value and is therefore detected as
   * a constant.
   */
  function RSquared(ps: seq<Point>, b0: real, b1: real, centred: bool): Value
    requires centred ==> MomentsOf(ps).w != 0.0
  {
    var m := MomentsOf(ps);
    var tss := if centred then Ssr(ps, m.wa / m.w, 0.0) else m.waa;
    Sub(Fin(1.0), Div(Fin(Ssr(ps, b0, b1)), Fin(tss)))
  }

  // ---------------------------------------------------------------------------
  // The fit of one group (calibrate_hplc.py:31-50)

  /**
   * The fit without intercept and its output row, over n − 1 residual
   * degrees of freedom; R² is centred exactly when every concentration is the
   * same.
   */
  function OriginFit(ps: seq<Point>): (row: CalibrationRow)
    requires MomentsOf(ps).wcc != 0.0
    ensures row.intercept == 0.0 && row.slope * MomentsOf(ps).wcc == MomentsOf(ps).wca
    ensures row.observations == |ps| && row.limitOfDetection == NaN
    ensures row.rseSquared == RseSquared(ps, 0.0, row.slope, |ps| - 1)
    ensures AllSameConcentration(ps) ==> MomentsOf(ps).w != 0.0
    ensures row.rsquared == RSquared(ps, 0.0, row.slope, AllSameConcentration(ps))
  {
    var slope := OriginSlope(MomentsOf(ps));
    OneConcentrationWeight(ps);
    CalibrationRow(
      0.0, slope, NaN, |ps|,
      RseSquared(ps, 0.0, slope, |ps| - 1),
      RSquared(ps, 0.0, slope, AllSameConcentration(ps)))
  }

  /** With one concentration c0, Σw·c² = c0²·Σw, so a non-zero Σw·c² needs a non-zero Σw. */
  lemma OneConcentrationWeight(ps: seq<Point>)
    requires MomentsOf(ps).wcc != 0.0
    ensures AllSameConcentration(ps) ==> MomentsOf(ps).w != 0.0
  {
    if AllSameConcentration(ps) && ps != [] {
      ConstantConcentrationMoments(ps, ps[0].c);
      ConstantConcentrationSquares(ps, ps[0].c);
    }
  }

  /** The fit with intercept and its output row, over n − 2 residual degrees of freedom. */
  function InterceptFit(ps: seq<Point>): (row: CalibrationRow)
    requires MomentsOf(ps).w != 0.0 && Det(MomentsOf(ps)) != 0.0
    ensures NormalEquations(MomentsOf(ps), row.intercept, row.slope)
    ensures row.observations == |ps| && row.limitOfDetection == NaN
    ensures row.rseSquared == RseSquared(ps, row.intercept, row.slope, |ps| - 2)
  {
    var b := InterceptLine(MomentsOf(ps));
    CalibrationRow(
      b.0, b.1, NaN, |ps|,
      RseSquared(ps, b.0, b.1, |ps| - 2),
      RSquared(ps, b.0, b.1, true))
  }

  /**
   * The weighted fit of a group under its policy, or None where the
   * regression has nothing to stand on: no points at all, or (with an
   * intercept) no two distinct concentrations.
   */
  function Fit(ps: seq<Point>, origin: bool): (r: Option<CalibrationRow>)
    requires InverseSquareWeighted(ps)
    ensures r.None? <==> if origin then ps == [] else AllSameConcentration(ps)
    ensures r.Some? ==> r.value.observations == |ps| > 0
  {
    if ps == [] then None
    else if origin then
      InverseSquareSumWCC(ps);
      Some(OriginFit(ps))
    else
      InverseSquarePositive(ps);
      SingularIffOneConcentration(ps);
      if Det(MomentsOf(ps)) == 0.0 then None else Some(InterceptFit(ps))
  }

  /** The fitted coefficients minimise the weighted residual sum of squares of their model. */
  lemma FitIsLeastSquares(ps: seq<Point>, origin: bool, b0: real, b1: real)
    requires InverseSquareWeighted(ps) && Fit(ps, origin).Some?
    ensures var row := Fit(ps, origin).value;
      Ssr(ps, row.intercept, row.slope) <= Ssr(ps, if origin then 0.0 else b0, b1)
  {
    InverseSquarePositive(ps);
    if origin {
      InverseSquareSumWCC(ps);
      OriginSlopeMinimises(ps, b1);
    } else {
      SingularIffOneConcentration(ps);
      InterceptLineMinimises(ps, b0, b1);
    }
  }

  /** Through the origin, the fitted slope is the mean of area / concentration. */
  lemma OriginFitIsMeanRatio(ps: seq<Point>)
    requires InverseSquareWeighted(ps) && Fit(ps, true).Some?
    ensures forall i | 0 <= i < |ps| :: ps[i].c != 0.0
    ensures Fit(ps, true).value.slope == RatioSum(ps) / |ps| as real
  {
    OriginSlopeIsMeanRatio(ps);
  }

  /** A perfect fit has zero relative error over any non-zero degrees of freedom. */
  lemma PerfectFitRse(ps: seq<Point>, b0: real, b1: real, df: int)
    requires OnLine(ps, b0, b1) && df != 0
    ensures RseSquared(ps, b0, b1, df) == Fin(0.0)
  {
    PerfectFitRatios(ps, b0, b1);
  }

  /** A perfect fit has R² = 1 wherever R² is defined. */
  lemma PerfectFitRSquared(ps: seq<Point>, b0: real, b1: real, centred: bool)
    requires OnLine(ps, b0, b1)
    requires centred ==> MomentsOf(ps).w != 0.0
    ensures RSquared(ps, b0, b1, centred).Fin? ==> RSquared(ps, b0, b1, centred) == Fin(1.0)
  {
    PerfectFitSsr(ps, b0, b1);
    var m := MomentsOf(ps);
    OneMinusZero(if centred then Ssr(ps, m.wa / m.w, 0.0) else m.waa);
  }

  /** 1 − 0/t is 1, or NaN when t is 0. */
  lemma OneMinusZero(t: real)
    ensures Sub(Fin(1.0), Div(Fin(0.0), Fin(t))) == if t == 0.0 then NaN else Fin(1.0)
  {
  }

  /**
   * Exact data through the origin: the true slope, zero relative error, and
   * R² = 1 where defined; at a single concentration the centred TSS is 0 as
   * well, so R² is 0/0, NaN.
   */
  lemma PerfectOriginFit(ps: seq<Point>, s: real)
    requires OnLine(ps, 0.0, s) && MomentsOf(ps).wcc != 0.0
    ensures OriginFit(ps).slope == s
    ensures |ps| != 1 ==> OriginFit(ps).rseSquared == Fin(0.0)
    ensures OriginFit(ps).rsquared.Fin? ==> OriginFit(ps).rsquared == Fin(1.0)
    ensures AllSameConcentration(ps) ==> OriginFit(ps).rsquared == NaN
  {
    ExactOriginRecovered(ps, s);
    if |ps| != 1 {
      PerfectFitRse(ps, 0.0, s, |ps| - 1);
    }
    OneConcentrationWeight(ps);
    PerfectOriginRSquared(ps, s, AllSameConcentration(ps));
  }

  lemma PerfectOriginRSquared(ps: seq<Point>, s: real, centred: bool)
    requires OnLine(ps, 0.0, s) && (centred ==> AllSameConcentration(ps) && MomentsOf(ps).w != 0.0)
    ensures RSquared(ps, 0.0, s, centred).Fin? ==> RSquared(ps, 0.0, s, centred) == Fin(1.0)
    ensures centred ==> RSquared(ps, 0.0, s, centred) == NaN
  {
    PerfectFitRSquared(ps, 0.0, s, centred);
    if centred {
      OneConcentrationNoRSquared(ps, s);
    }
  }

  /** Exact data at one concentration c0 has one area s·c0, which is its weighted mean: the centred TSS is 0. */
  lemma OneConcentrationNoRSquared(ps: seq<Point>, s: real)
    requires OnLine(ps, 0.0, s) && AllSameConcentration(ps) && MomentsOf(ps).w != 0.0
    ensures RSquared(ps, 0.0, s, true) == NaN
  {
    var m := MomentsOf(ps);
    var area := s * ps[0].c;
    forall i | 0 <= i < |ps| ensures Resid(ps[i], area, 0.0) == 0.0 {
      assert Resid(ps[i], 0.0, s) == 0.0;
    }
    LineMoments(ps, area, 0.0);
    DivideOut(m.wa, m.w, area);
    PerfectFitSsr(ps, area, 0.0);
    PerfectFitSsr(ps, 0.0, s);
    OneMinusZero(0.0);
  }

  lemma DivideOut(x: real, w: real, y: real)
    requires w != 0.0 && x == y * w + 0.0 * w
    ensures x / w == y
  {
  }

  lemma PerfectInterceptFit(ps: seq<Point>, b0: real, b1: real)
    requires OnLine(ps, b0, b1) && MomentsOf(ps).w != 0.0 && Det(MomentsOf(ps)) != 0.0
    ensures InterceptFit(ps).intercept == b0 && InterceptFit(ps).slope == b1
    ensures |ps| != 2 ==> InterceptFit(ps).rseSquared == Fin(0.0)
    ensures InterceptFit(ps).rsquared.Fin? ==> InterceptFit(ps).rsquared == Fin(1.0)
  {
    ExactLineRecovered(ps, b0, b1);
    PerfectFitSsr(ps, b0, b1);
    if |ps| != 2 {
      PerfectFitRse(ps, b0, b1, |ps| - 2);
    }
    PerfectFitRSquared(ps, b0, b1, true);
  }

  /**
   * Standards lying exactly on a line are recovered exactly: the true slope
   * (and intercept), zero relative error and R² = 1 whenever those are defined.
   */
  lemma PerfectFit(ps: seq<Point>, origin: bool, b0: real, b1: real)
    requires InverseSquareWeighted(ps) && Fit(ps, origin).Some?
    requires OnLine(ps, if origin then 0.0 else b0, b1)
    ensures var row := Fit(ps, origin).value;
      && row.slope == b1
      && row.intercept == (if origin then 0.0 else b0)
      && (|ps| != (if origin then 1 else 2) ==> row.rseSquared == Fin(0.0))
      && (row.rsquared.Fin? ==> row.rsquared == Fin(1.0))
      && (origin && AllSameConcentration(ps) ==> row.rsquared == NaN)
  {
    if origin {
      InverseSquareSumWCC(ps);
      PerfectOriginFit(ps, b1);
    } else {
      InverseSquarePositive(ps);
      SingularIffOneConcentration(ps);
      PerfectInterceptFit(ps, b0, b1);
    }
  }

  // ---------------------------------------------------------------------------
  // get_calibration (calibrate_hplc.py:16-52)

  /**
   * The calibration row of one group: no row when fewer than two standards
   * are usable, a failure when the usable standards mix intercept policies,
   * and otherwise the fit under the group's policy, failing when it is
   * degenerate.
   */
  function GetCalibration(key: GroupKey, data: seq<Standard>): (r: Result<Option<CalibrationRow>, Failure>)
    ensures r == Ok(None) <==> |UsableRows(data)| <= 1
    ensures r == Err(MixedInterceptPolicy(key)) <==> |UsableRows(data)| > 1 && |Flags(UsableRows(data))| != 1
    ensures r.Err? ==> r.error.key == key
    ensures |UsableRows(data)| > 1 && |Flags(UsableRows(data))| == 1 ==>
      var ps := FitPoints(UsableRows(data));
      && InverseSquareWeighted(ps)
      && (r == Err(FitFailed(key)) <==>
            if ThroughOrigin(UsableRows(data)[0].flag) then ps == [] else AllSameConcentration(ps))
      && (r.Ok? ==> r.value == Fit(ps, ThroughOrigin(UsableRows(data)[0].flag)))
  {
    var rows := UsableRows(data);
    if |rows| <= 1 then Ok(None)
    else if |Flags(rows)| != 1 then Err(MixedInterceptPolicy(key))
    else
      FitPointsWeighted(data);
      match Fit(FitPoints(rows), ThroughOrigin(rows[0].flag))
      case None => Err(FitFailed(key))
      case Some(row) => Ok(Some(row))
  }

  // ---------------------------------------------------------------------------
  // main: group by (molecule_id, channel, calibration_group) (calibrate_hplc.py:67-68)

  /** The standards of one group, in table order: exactly those carrying the group's key. */
  function Group(data: seq<Standard>, key: GroupKey): (g: seq<Standard>)
    ensures |g| <= |data|
    ensures forall i | 0 <= i < |g| :: KeyOf(g[i]) == key && g[i] in data
    ensures forall i | 0 <= i < |data| :: KeyOf(data[i]) == key ==> data[i] in g
  {
    if data == [] then []
    else
      var rest := Group(data[1..], key);
      assert forall i | 1 <= i < |data| :: data[i] == data[1..][i - 1];
      if KeyOf(data[0]) == key then [data[0]] + rest else rest
  }

  /**
   * Grouping distributes over concatenation, so a group keeps the table's
   * order and its repeated rows.
   */
  lemma {:induction false} GroupAppend(a: seq<Standard>, b: seq<Standard>, key: GroupKey)
    ensures Group(a + b, key) == Group(a, key) + Group(b, key)
  {
    if a == [] {
      assert a + b == b;
    } else {
      assert (a + b)[0] == a[0] && (a + b)[1..] == a[1..] + b;
      GroupAppend(a[1..], b, key);
    }
  }

  /** The calibration of the group with key `k`. */
  function GroupCalibration(data: seq<Standard>, k: GroupKey): Result<Option<CalibrationRow>, Failure>
  {
    GetCalibration(k, Group(data, k))
  }

  /**
   * Calibrates the groups in the order given (pandas visits them sorted); the
   * first failing group aborts the run, and a group with no row is skipped.
   */
  function CalibrateAll(data: seq<Standard>, keys: seq<GroupKey>): (r: Result<seq<(GroupKey, CalibrationRow)>, Failure>)
    ensures r.Ok? <==> forall k | k in keys :: GroupCalibration(data, k).Ok?
    ensures r.Ok? ==> forall i | 0 <= i < |r.value| ::
      r.value[i].0 in keys && GroupCalibration(data, r.value[i].0) == Ok(Some(r.value[i].1))
    ensures r.Ok? ==> forall k | k in keys && GroupCalibration(data, k).Ok? && GroupCalibration(data, k).value.Some? ::
      (k, GroupCalibration(data, k).value.value) in r.value
    ensures r.Err? ==> exists k | k in keys :: GroupCalibration(data, k) == Err(r.error)
  {
    if keys == [] then Ok([])
    else
      assert forall j | 1 <= j < |keys| :: keys[j] == keys[1..][j - 1];
      Step(keys[0], GroupCalibration(data, keys[0]), CalibrateAll(data, keys[1..]))
  }

  /** One group's outcome in front of the outcome of the groups after it. */
  function Step(k: GroupKey, head: Result<Option<CalibrationRow>, Failure>,
                rest: Result<seq<(GroupKey, CalibrationRow)>, Failure>): Result<seq<(GroupKey, CalibrationRow)>, Failure>
  {
    match head
    case Err(e) => Err(e)
    case Ok(row) =>
      match rest
      case Err(e) => Err(e)
      case Ok(rows) => if row.Some? then Ok([(k, row.value)] + rows) else Ok(rows)
  }

  /** The outcome of two runs one after the other: the first failure wins, otherwise the rows in turn. */
  function Then(first: Result<seq<(GroupKey, CalibrationRow)>, Failure>,
                second: Result<seq<(GroupKey, CalibrationRow)>, Failure>): Result<seq<(GroupKey, CalibrationRow)>, Failure>
  {
    match first
    case Err(e) => Err(e)
    case Ok(a) =>
      match second
      case Err(e) => Err(e)
      case Ok(b) => Ok(a + b)
  }

  lemma StepThen(k: GroupKey, head: Result<Option<CalibrationRow>, Failure>,
                 r1: Result<seq<(GroupKey, CalibrationRow)>, Failure>, r2: Result<seq<(GroupKey, CalibrationRow)>, Failure>)
    ensures Step(k, head, Then(r1, r2)) == Then(Step(k, head, r1), r2)
  {
    if head.Ok? && head.value.Some? && r1.Ok? && r2.Ok? {
      assert [(k, head.value.value)] + (r1.value + r2.value) == ([(k, head.value.value)] + r1.value) + r2.value;
    }
  }

  /**
   * Calibrating a list of keys in two parts: the first part's failure wins,
   * and otherwise the rows come part by part, so they follow the key order.
   */
  lemma {:induction false} CalibrateAllAppend(data: seq<Standard>, ks1: seq<GroupKey>, ks2: seq<GroupKey>)
    ensures CalibrateAll(data, ks1 + ks2) == Then(CalibrateAll(data, ks1), CalibrateAll(data, ks2))
  {
    if ks1 == [] {
      assert ks1 + ks2 == ks2;
      match CalibrateAll(data, ks2)
      case Err(_) =>
      case Ok(b) => assert [] + b == b;
    } else {
      var k := ks1[0];
      assert (ks1 + ks2)[0] == k && (ks1 + ks2)[1..] == ks1[1..] + ks2;
      CalibrateAllAppend(data, ks1[1..], ks2);
      StepThen(k, GroupCalibration(data, k), CalibrateAll(data, ks1[1..]), CalibrateAll(data, ks2));
    }
  }

  /** The keys the groupby yields: each once, and exactly those some standard carries. */
  predicate GroupKeysOf(data: seq<Standard>, keys: seq<GroupKey>)
  {
    && (forall i, j | 0 <= i < j < |keys| :: keys[i] != keys[j])
    && (forall k | k in keys :: exists i | 0 <= i < |data| :: KeyOf(data[i]) == k)
    && (forall i | 0 <= i < |data| :: KeyOf(data[i]) in keys)
  }

  /**
   * Over the groupby's keys every group is non-empty, the run succeeds exactly
   * when every standard's group calibrates, and then every standard whose
   * group has a row finds that row, under its key, in the output.
   */
  lemma CalibrateEveryGroup(data: seq<Standard>, keys: seq<GroupKey>)
    requires GroupKeysOf(data, keys)
    ensures forall k | k in keys :: Group(data, k) != []
    ensures CalibrateAll(data, keys).Ok? <==>
      forall i | 0 <= i < |data| :: GroupCalibration(data, KeyOf(data[i])).Ok?
    ensures CalibrateAll(data, keys).Ok? ==> forall i | 0 <= i < |data| ::
      GroupCalibration(data, KeyOf(data[i])).value.Some? ==>
        (KeyOf(data[i]), GroupCalibration(data, KeyOf(data[i])).value.value) in CalibrateAll(data, keys).value
  {
    forall k | k in keys ensures Group(data, k) != [] {
      var i :| 0 <= i < |data| && KeyOf(data[i]) == k;
      assert data[i] in Group(data, k);
    }
  }

  /** With distinct keys, each group contributes at most one row, so no key appears twice. */
  lemma {:induction false} OneRowPerGroup(data: seq<Standard>, keys: seq<GroupKey>)
    requires forall i, j | 0 <= i < j < |keys| :: keys[i] != keys[j]
    requires CalibrateAll(data, keys).Ok?
    ensures var rows := CalibrateAll(data, keys).value;
      forall i, j | 0 <= i < j < |rows| :: rows[i].0 != rows[j].0
  {
    if keys != [] {
      var rest := CalibrateAll(data, keys[1..]);
      OneRowPerGroup(data, keys[1..]);
      assert forall i | 0 <= i < |rest.value| :: rest.value[i].0 in keys[1..];
      assert keys[0] !in keys[1..];
      StepKeepsDistinct(keys[0], GroupCalibration(data, keys[0]), rest);
    }
  }

  /** A group in front of rows of other, distinct groups leaves every group on one row. */
  lemma StepKeepsDistinct(k: GroupKey, head: Result<Option<CalibrationRow>, Failure>,
                          rest: Result<seq<(GroupKey, CalibrationRow)>, Failure>)
    requires Step(k, head, rest).Ok?
    requires forall i, j | 0 <= i < j < |rest.value| :: rest.value[i].0 != rest.value[j].0
    requires forall i | 0 <= i < |rest.value| :: rest.value[i].0 != k
    ensures var rows := Step(k, head, rest).value;
      forall i, j | 0 <= i < j < |rows| :: rows[i].0 != rows[j].0
  {
  }
}
