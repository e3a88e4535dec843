/**
 * The non-graphical helpers of the shared plotting library
 * (scripts/lib/plotting.py, `load_style`): the p-value significance marks,
 * the millimetre-to-inch figure widths, and the choice between the two
 * named styles.
 */
module Plotting {
  import opened Wrappers
  import opened Floats

  // Significance marks (plotting.py:214-222).

  /** The dagger mark as the source file spells it: the UTF-8 bytes of U+2020 read back as cp1252. */
  const Dagger: string := "\U{E2}\U{20AC}\U{A0}"

  /** The mark for a p-value: none, dagger, one star or two stars. */
  function SignificanceSymbol(p: Value): (r: string)
    ensures r == "" <==> Ge(p, Fin(0.10))
    ensures r == Dagger <==> Ge(p, Fin(0.05)) && !Ge(p, Fin(0.10))
    ensures r == "*" <==> Ge(p, Fin(0.001)) && !Ge(p, Fin(0.05))
    ensures r == "**" <==> !Ge(p, Fin(0.001))
  {
    if Ge(p, Fin(0.10)) then ""
    else if Ge(p, Fin(0.05)) then Dagger
    else if Ge(p, Fin(0.001)) then "*"
    else "**"
  }

  /** How strong a mark is: 0 for none up to 3 for two stars. */
  function Strength(mark: string): nat
  {
    if mark == "" then 0 else if mark == Dagger then 1 else if mark == "*" then 2 else 3
  }

  /** A smaller p-value never earns a weaker mark. */
  lemma SmallerIsStronger(p: real, q: real)
    requires p <= q
    ensures Strength(SignificanceSymbol(Fin(p))) >= Strength(SignificanceSymbol(Fin(q)))
  {
  }

  /** The bands on finite p-values, by their bounds. */
  lemma Bands(p: real)
    ensures SignificanceSymbol(Fin(p)) == "" <==> p >= 0.10
    ensures SignificanceSymbol(Fin(p)) == Dagger <==> 0.05 <= p < 0.10
    ensures SignificanceSymbol(Fin(p)) == "*" <==> 0.001 <= p < 0.05
    ensures SignificanceSymbol(Fin(p)) == "**" <==> p < 0.001
  {
  }

  /** NaN fails every comparison and so gets the strongest mark, as does minus infinity; plus infinity gets none. */
  lemma NonFiniteMarks()
    ensures SignificanceSymbol(NaN) == "**"
    ensures SignificanceSymbol(Inf(true)) == "**"
    ensures SignificanceSymbol(Inf(false)) == ""
  {
  }

  // Figure sizes (plotting.py:231-234).

  /** `_mm_to_inch`. */
  function MmToInch(mm: real): (inch: real)
    ensures inch * 25.4 == mm
  {
    mm / 25.4
  }

  const HalfWidth: real := MmToInch(85.0)
  const FullWidth: real := MmToInch(170.0)
  const FullHeight: real := MmToInch(225.0)

  /** The conversion is linear, so a full-width figure is exactly two half-width ones. */
  lemma FullIsTwoHalves()
    ensures FullWidth == 2.0 * HalfWidth
    ensures HalfWidth < FullWidth < FullHeight
  {
    assert MmToInch(85.0) * 25.4 == 85.0;
    assert MmToInch(170.0) * 25.4 == 170.0;
    assert MmToInch(225.0) * 25.4 == 225.0;
  }

  /** Conversions add: the width of two panels side by side is the sum of their widths. */
  lemma MmToInchAdds(a: real, b: real)
    ensures MmToInch(a + b) == MmToInch(a) + MmToInch(b)
  {
    assert (MmToInch(a) + MmToInch(b)) * 25.4 == a + b;
  }

  // Named styles (plotting.py:237-264).

  /** The rcParams and seaborn settings a style applies, and the figure widths `load_style` returns. */
  datatype Style = Style(
    context: string, axesStyle: string, dpi: nat, figsize: (nat, nat),
    axesLinewidth: real, tickDirection: string, tickSize: nat, tickWidth: real,
    halfwidth: real, fullwidth: real, fullheight: real)

  datatype StyleFailure = NotImplemented(styleName: string)

  const Paper: Style := Style("paper", "white", 150, (4, 3), 0.5, "in", 2, 0.5, HalfWidth, FullWidth, FullHeight)
  const Poster: Style := Style("poster", "dark", 250, (4, 3), 1.5, "in", 4, 1.0, HalfWidth, FullWidth, FullHeight)

  /** `load_style`: "paper" or "poster", and NotImplementedError for any other name. */
  function LoadStyle(name: string): (r: Result<Style, StyleFailure>)
    ensures r.Ok? <==> name == "paper" || name == "poster"
    ensures r.Ok? ==> r.value.context == name
    ensures r.Err? ==> r.error == NotImplemented(name)
  {
    if name == "paper" then Ok(Paper)
    else if name == "poster" then Ok(Poster)
    else Err(NotImplemented(name))
  }

  /**
   * Both styles draw inward ticks on a 4 by 3 inch default figure at the
   * same widths; the poster style has the higher resolution and the
   * heavier lines and ticks.
   */
  lemma PosterOutweighsPaper(a: Style, b: Style)
    requires LoadStyle("paper") == Ok(a) && LoadStyle("poster") == Ok(b)
    ensures a.figsize == b.figsize == (4, 3) && a.tickDirection == b.tickDirection == "in"
    ensures a.fullwidth == b.fullwidth && a.halfwidth == b.halfwidth && a.fullheight == b.fullheight
    ensures a.dpi < b.dpi && a.axesLinewidth < b.axesLinewidth
    ensures b.tickSize == 2 * a.tickSize && b.tickWidth == 2.0 * a.tickWidth
  {
  }
}
