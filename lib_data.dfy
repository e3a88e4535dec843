/**
 * The derived per-mouse columns of the shared loader (scripts/lib/data.py,
 * `load_data`): carbon-weighted short-chain fatty acid concentrations and
 * their fractions, relative abundances, the clamped "unclassified" family
 * remainder, and the `dead` flag.
 */
module MouseData {
  import opened Wrappers
  import opened Floats

  // Concentrations (data.py:20-33).

  datatype Molecule = Acetate | Butyrate | Succinate | Lactate | Propionate | Glucose

  /** The columns of the concentration table, in the loader's order. */
  const Molecules: seq<Molecule> := [Acetate, Butyrate, Succinate, Lactate, Propionate, Glucose]

  /** Carbon atoms per molecule. */
  function CarbonCount(m: Molecule): (k: nat)
    ensures k >= 2
  {
    match m
    case Acetate => 2
    case Butyrate => 4
    case Succinate => 4
    case Lactate => 3
    case Propionate => 3
    case Glucose => 6
  }

  /** A mouse's concentration of `m`: the measured value, or 0 when none was measured (`fill_value=0`). */
  function Amount(measured: map<Molecule, real>, m: Molecule): real
  {
    if m in measured then measured[m] else 0.0
  }

  /** The `_c` column: concentration times carbon count. */
  function CarbonWeighted(measured: map<Molecule, real>, m: Molecule): real
  {
    Amount(measured, m) * CarbonCount(m) as real
  }

  /** `fermented_c`: the carbon-weighted columns of every molecule but glucose. */
  function FermentedC(measured: map<Molecule, real>): real
  {
    CarbonWeighted(measured, Acetate) + CarbonWeighted(measured, Butyrate) + CarbonWeighted(measured, Succinate) +
    CarbonWeighted(measured, Lactate) + CarbonWeighted(measured, Propionate)
  }

  /** The `_frac` column: raw concentration over `fermented_c`. */
  function Frac(measured: map<Molecule, real>, m: Molecule): Value
  {
    Div(Fin(Amount(measured, m)), Fin(FermentedC(measured)))
  }

  /** `total_scfa`. */
  function TotalScfa(measured: map<Molecule, real>): real
  {
    Amount(measured, Acetate) + Amount(measured, Butyrate) + Amount(measured, Propionate)
  }

  /** The `_scfa_frac` columns (for acetate, butyrate and propionate). */
  function ScfaFrac(measured: map<Molecule, real>, m: Molecule): Value
  {
    Div(Fin(Amount(measured, m)), Fin(TotalScfa(measured)))
  }

  // Properties of the concentrations.

  lemma DivAdd(a: real, b: real, t: real)
    requires t != 0.0
    ensures a / t + b / t == (a + b) / t
  {
  }

  /** Five carbon shares of a total weighted 2, 4, 4, 3, 3 add up to one. */
  lemma WeightedShares(a: real, b: real, s: real, l: real, p: real, f: real)
    requires f != 0.0 && f == a * 2.0 + b * 4.0 + s * 4.0 + l * 3.0 + p * 3.0
    ensures a / f * 2.0 + b / f * 4.0 + s / f * 4.0 + l / f * 3.0 + p / f * 3.0 == 1.0
  {
    var x1, x2, x3, x4, x5 := a * 2.0, b * 4.0, s * 4.0, l * 3.0, p * 3.0;
    DivScale(a, 2.0, f);
    DivScale(b, 4.0, f);
    DivScale(s, 4.0, f);
    DivScale(l, 3.0, f);
    DivScale(p, 3.0, f);
    DivAdd(x1, x2, f);
    DivAdd(x1 + x2, x3, f);
    DivAdd(x1 + x2 + x3, x4, f);
    DivAdd(x1 + x2 + x3 + x4, x5, f);
    assert x1 + x2 + x3 + x4 + x5 == f;
    DivSelf(f);
  }

  lemma DivSelf(t: real)
    requires t != 0.0
    ensures t / t == 1.0
  {
  }

  lemma DivScale(a: real, k: real, t: real)
    requires t != 0.0
    ensures a / t * k == (a * k) / t
  {
  }

  /** Glucose never enters `fermented_c`, and an unmeasured molecule counts as nothing. */
  lemma GlucoseExcluded(measured: map<Molecule, real>, g: real)
    ensures FermentedC(measured[Glucose := g]) == FermentedC(measured)
    ensures FermentedC(measured - {Glucose}) == FermentedC(measured)
  {
  }

  /** The carbon shares of the fermentation products add up to one whenever `fermented_c` is not zero. */
  lemma CarbonSharesSumToOne(measured: map<Molecule, real>)
    requires FermentedC(measured) != 0.0
    ensures forall m :: Frac(measured, m).Fin?
    ensures Frac(measured, Acetate).r * 2.0 + Frac(measured, Butyrate).r * 4.0 + Frac(measured, Succinate).r * 4.0 +
      Frac(measured, Lactate).r * 3.0 + Frac(measured, Propionate).r * 3.0 == 1.0
  {
    var f := FermentedC(measured);
    var a, b, s, l, p := Amount(measured, Acetate), Amount(measured, Butyrate), Amount(measured, Succinate),
      Amount(measured, Lactate), Amount(measured, Propionate);
    assert f == a * 2.0 + b * 4.0 + s * 4.0 + l * 3.0 + p * 3.0;
    assert Frac(measured, Acetate).r == a / f;
    assert Frac(measured, Butyrate).r == b / f;
    assert Frac(measured, Succinate).r == s / f;
    assert Frac(measured, Lactate).r == l / f;
    assert Frac(measured, Propionate).r == p / f;
    WeightedShares(a, b, s, l, p, f);
  }

  /**
   * With no fermentation product, `fermented_c` is zero: a fraction is NaN
   * for a molecule with zero concentration and infinite otherwise (glucose).
   */
  lemma NoFermentation(measured: map<Molecule, real>, m: Molecule)
    requires FermentedC(measured) == 0.0
    ensures Frac(measured, m).NaN? <==> Amount(measured, m) == 0.0
    ensures Frac(measured, m).Inf? <==> Amount(measured, m) != 0.0
  {
  }

  /** The three SCFA fractions are finite and add up to one whenever `total_scfa` is not zero. */
  lemma ScfaFractionsSumToOne(measured: map<Molecule, real>)
    requires TotalScfa(measured) != 0.0
    ensures ScfaFrac(measured, Acetate).Fin? && ScfaFrac(measured, Butyrate).Fin? && ScfaFrac(measured, Propionate).Fin?
    ensures ScfaFrac(measured, Acetate).r + ScfaFrac(measured, Butyrate).r + ScfaFrac(measured, Propionate).r == 1.0
  {
    var t := TotalScfa(measured);
    var a, b, p := Amount(measured, Acetate), Amount(measured, Butyrate), Amount(measured, Propionate);
    DivAdd(a, b, t);
    DivAdd(a + b, p, t);
    DivSelf(t);
  }

  // Abundances (data.py:57-71, 113).

  /** The sum of the first `n` entries. */
  function SumTo(xs: seq<real>, n: nat): real
    requires n <= |xs|
  {
    if n == 0 then 0.0 else SumTo(xs, n - 1) + xs[n - 1]
  }

  /** `x.sum()` over a row; also the `dens` column. */
  function Sum(xs: seq<real>): real
  {
    SumTo(xs, |xs|)
  }

  /** The sum of the first `n` entries whose OTU has (`want`) or lacks a family. */
  function SumWhere(xs: seq<real>, family: seq<Option<string>>, want: bool, n: nat): real
    requires n <= |xs| == |family|
  {
    if n == 0 then 0.0
    else SumWhere(xs, family, want, n - 1) + (if family[n - 1].Some? == want then xs[n - 1] else 0.0)
  }

  /** `abund_family.sum(axis=1)`: `groupby` drops OTUs without a family, so only classified ones count. */
  function Classified(xs: seq<real>, family: seq<Option<string>>): real
    requires |xs| == |family|
  {
    SumWhere(xs, family, true, |xs|)
  }

  /** `x[x < 0] = 0`. */
  function Clamp(x: real): (r: real)
    ensures r >= 0.0 && (x >= 0.0 ==> r == x)
  {
    if x < 0.0 then 0.0 else x
  }

  /** The `unclassified` family abundance: the total minus the classified part, clamped at zero. */
  function Unclassified(xs: seq<real>, family: seq<Option<string>>): real
    requires |xs| == |family|
  {
    Clamp(Sum(xs) - Classified(xs, family))
  }

  /** `rabund`: each abundance over the row's total. */
  function Rabund(xs: seq<real>): (r: seq<Value>)
    ensures |r| == |xs| && forall i | 0 <= i < |xs| :: r[i] == Div(Fin(xs[i]), Fin(Sum(xs)))
    ensures Sum(xs) != 0.0 ==> forall i | 0 <= i < |xs| :: r[i].Fin? && r[i].r * Sum(xs) == xs[i]
    ensures Sum(xs) == 0.0 ==> forall i | 0 <= i < |xs| :: (r[i].NaN? <==> xs[i] == 0.0) && (r[i].Inf? <==> xs[i] != 0.0)
  {
    seq(|xs|, i requires 0 <= i < |xs| => Div(Fin(xs[i]), Fin(Sum(xs))))
  }

  /** `sum()` with NaN skipped, over the first `n` classified entries. */
  function NanSumClassified(vs: seq<Value>, family: seq<Option<string>>, n: nat): Value
    requires n <= |vs| == |family|
  {
    if n == 0 then Fin(0.0)
    else
      var prev := NanSumClassified(vs, family, n - 1);
      if family[n - 1].Some? && !vs[n - 1].NaN? then Add(prev, vs[n - 1]) else prev
  }

  /** `x[x < 0] = 0` on a float: NaN is not below zero and stays. */
  function ClampValue(x: Value): Value
  {
    if Lt(x, Fin(0.0)) then Fin(0.0) else x
  }

  /** The relative `unclassified` abundance: one minus the classified relative abundances, clamped at zero. */
  function RelUnclassified(xs: seq<real>, family: seq<Option<string>>): Value
    requires |xs| == |family|
  {
    ClampValue(Sub(Fin(1.0), NanSumClassified(Rabund(xs), family, |xs|)))
  }

  /** `mouse['dead']`: censored 1.0 is alive, 0.0 is dead, anything else is missing. */
  function Dead(censored: Value): (r: Option<bool>)
    ensures r.Some? <==> censored == Fin(0.0) || censored == Fin(1.0)
    ensures r == Some(true) <==> censored == Fin(0.0)
  {
    if censored == Fin(1.0) then Some(false) else if censored == Fin(0.0) then Some(true) else None
  }

  /** Taxon names with every `-` and `.` replaced by `_` (`str.replace('[-.]', '_')`). */
  function Sanitize(name: string): (r: string)
    ensures |r| == |name|
    ensures '-' !in r && '.' !in r
    ensures forall i | 0 <= i < |name| :: name[i] !in "-." ==> r[i] == name[i]
    ensures forall i | 0 <= i < |name| :: name[i] in "-." ==> r[i] == '_'
  {
    if name == [] then []
    else
      var c := name[|name| - 1];
      Sanitize(name[..|name| - 1]) + [if c == '-' || c == '.' then '_' else c]
  }

  /** `mouse.site`: the site code "JL" is renamed "TJL"; every other site is kept. */
  function Site(site: string): (r: string)
    ensures r != "JL"
    ensures site != "JL" ==> r == site
    ensures site == "JL" ==> r == "TJL"
  {
    if site == "JL" then "TJL" else site
  }

  /** The masked assignments of data.py:68 and :71, in place on one column. */
  method ClampColumn(a: array<real>)
    modifies a
    ensures forall i | 0 <= i < a.Length :: a[i] == Clamp(old(a[i]))
  {
    for i := 0 to a.Length
      invariant forall j | 0 <= j < i :: a[j] == Clamp(old(a[j]))
      invariant forall j | i <= j < a.Length :: a[j] == old(a[j])
    {
      if a[i] < 0.0 {
        a[i] := 0.0;
      }
    }
  }

  /** The `unclassified` column of `abund_family` for every mouse: the remainders, then the clamp. */
  method UnclassifiedColumn(rows: seq<seq<real>>, family: seq<Option<string>>) returns (u: array<real>)
    requires forall r | 0 <= r < |rows| :: |rows[r]| == |family|
    ensures u.Length == |rows|
    ensures forall r | 0 <= r < |rows| :: u[r] == Unclassified(rows[r], family)
  {
    u := new real[|rows|];
    for r := 0 to |rows|
      invariant forall j | 0 <= j < r :: u[j] == Sum(rows[j]) - Classified(rows[j], family)
    {
      u[r] := Sum(rows[r]) - Classified(rows[r], family);
    }
    ClampColumn(u);
  }

  // Properties of the abundances.

  /** The total splits into the classified and the unclassified parts. */
  lemma {:induction false} SumSplits(xs: seq<real>, family: seq<Option<string>>, n: nat)
    requires n <= |xs| == |family|
    ensures SumTo(xs, n) == SumWhere(xs, family, true, n) + SumWhere(xs, family, false, n)
  {
    if n > 0 {
      SumSplits(xs, family, n - 1);
    }
  }

  lemma {:induction false} SumWhereNonNegative(xs: seq<real>, family: seq<Option<string>>, want: bool, n: nat)
    requires n <= |xs| == |family|
    requires forall i | 0 <= i < |xs| :: xs[i] >= 0.0
    ensures SumWhere(xs, family, want, n) >= 0.0
  {
    if n > 0 {
      SumWhereNonNegative(xs, family, want, n - 1);
    }
  }

  /**
   * For non-negative abundances the clamp never fires: `unclassified` is
   * exactly the abundance of the OTUs without a family.
   */
  lemma UnclassifiedIsRemainder(xs: seq<real>, family: seq<Option<string>>)
    requires |xs| == |family|
    requires forall i | 0 <= i < |xs| :: xs[i] >= 0.0
    ensures Unclassified(xs, family) == SumWhere(xs, family, false, |xs|)
  {
    SumSplits(xs, family, |xs|);
    SumWhereNonNegative(xs, family, false, |xs|);
  }

  /** The classified relative abundances sum to the classified share of the total. */
  lemma {:induction false} NanSumShare(xs: seq<real>, family: seq<Option<string>>, n: nat)
    requires n <= |xs| == |family| && Sum(xs) != 0.0
    ensures NanSumClassified(Rabund(xs), family, n) == Fin(SumWhere(xs, family, true, n) / Sum(xs))
  {
    if n > 0 {
      NanSumShare(xs, family, n - 1);
      var t := Sum(xs);
      var prev := SumWhere(xs, family, true, n - 1);
      DivAdd(prev, xs[n - 1], t);
      DivAdd(prev, 0.0, t);
    }
  }

  /** The relative abundances of a row with a non-zero total are finite and sum to one. */
  lemma {:induction false} RabundSumsToOne(xs: seq<real>)
    requires Sum(xs) != 0.0
    ensures forall i | 0 <= i < |xs| :: Rabund(xs)[i].Fin?
    ensures NanSumClassified(Rabund(xs), seq(|xs|, i => Some("")), |xs|) == Fin(1.0)
  {
    var everything := seq(|xs|, i => Some(""));
    NanSumShare(xs, everything, |xs|);
    SumSplits(xs, everything, |xs|);
    NothingUnclassified(xs, everything, |xs|);
    DivSelf(Sum(xs));
  }

  lemma {:induction false} NothingUnclassified(xs: seq<real>, family: seq<Option<string>>, n: nat)
    requires n <= |xs| == |family| && forall i | 0 <= i < |family| :: family[i].Some?
    ensures SumWhere(xs, family, false, n) == 0.0
  {
    if n > 0 {
      NothingUnclassified(xs, family, n - 1);
    }
  }

  /**
   * For non-negative abundances with a positive total, the relative
   * `unclassified` abundance is the unclassified share of the total, and
   * the clamp never fires.
   */
  lemma RelUnclassifiedIsShare(xs: seq<real>, family: seq<Option<string>>)
    requires |xs| == |family|
    requires forall i | 0 <= i < |xs| :: xs[i] >= 0.0
    requires Sum(xs) > 0.0
    ensures RelUnclassified(xs, family) == Fin(SumWhere(xs, family, false, |xs|) / Sum(xs))
  {
    var t := Sum(xs);
    var c := SumWhere(xs, family, true, |xs|);
    var u := SumWhere(xs, family, false, |xs|);
    NanSumShare(xs, family, |xs|);
    SumSplits(xs, family, |xs|);
    SumWhereNonNegative(xs, family, false, |xs|);
    DivAdd(c, u, t);
    DivSelf(t);
    assert u / t >= 0.0;
  }

  /**
   * A mouse whose abundances are all zero has NaN relative abundances,
   * which the sum skips, so its relative `unclassified` abundance is one.
   */
  lemma {:induction false} AllZeroMouse(xs: seq<real>, family: seq<Option<string>>)
    requires |xs| == |family|
    requires forall i | 0 <= i < |xs| :: xs[i] == 0.0
    ensures Sum(xs) == 0.0
    ensures forall i | 0 <= i < |xs| :: Rabund(xs)[i].NaN?
    ensures RelUnclassified(xs, family) == Fin(1.0)
  {
    ZeroSum(xs, |xs|);
    NanSumOfNaNs(Rabund(xs), family, |xs|);
  }

  lemma {:induction false} ZeroSum(xs: seq<real>, n: nat)
    requires n <= |xs| && forall i | 0 <= i < |xs| :: xs[i] == 0.0
    ensures SumTo(xs, n) == 0.0
  {
    if n > 0 {
      ZeroSum(xs, n - 1);
    }
  }

  lemma {:induction false} NanSumOfNaNs(vs: seq<Value>, family: seq<Option<string>>, n: nat)
    requires n <= |vs| == |family| && forall i | 0 <= i < |vs| :: vs[i].NaN?
    ensures NanSumClassified(vs, family, n) == Fin(0.0)
  {
    if n > 0 {
      NanSumOfNaNs(vs, family, n - 1);
    }
  }

  /** Sanitising an already sanitised name changes nothing. */
  lemma {:induction false} SanitizeIdempotent(name: string)
    ensures Sanitize(Sanitize(name)) == Sanitize(name)
  {
    if name != [] {
      SanitizeIdempotent(name[..|name| - 1]);
      var r := Sanitize(name);
      assert r[..|r| - 1] == Sanitize(name[..|name| - 1]);
    }
  }

  /**
   * The `unclassified` count of `count_family` (no clamp there) is exactly
   * the tally of the OTUs without a family, whatever the signs.
   */
  lemma CountRemainder(tallies: seq<real>, family: seq<Option<string>>)
    requires |tallies| == |family|
    ensures Sum(tallies) - Classified(tallies, family) == SumWhere(tallies, family, false, |tallies|)
  {
    SumSplits(tallies, family, |tallies|);
  }

  /** Clamping a column keeps every non-negative entry and zeroes only the negative ones. */
  lemma ClampKeeps(x: real)
    ensures Clamp(x) == x <==> x >= 0.0
    ensures Clamp(x) == 0.0 <==> x <= 0.0
  {
  }
}
