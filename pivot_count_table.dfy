/**
 * The MOTHUR count-table sparsifier (scripts/pivot_count_table.py): a wide
 * table with one column per library becomes one
 * (rrs_library_id, taxon_level, taxon_id, tally) row per non-zero cell.
 * The input is the file as a sequence of lines; what the script prints is
 * the header line followed by the emitted rows, and a failure stops it
 * after the rows printed so far.
 */
module CountTable {
  import opened Wrappers
  import opened Text

  datatype Row = Row(library: string, level: string, taxon: string, tally: string)

  datatype Failure =
    | NoHeader            // `next(handle)` on an empty file
    | ShortLine(line: nat) // a data line with fewer than two tokens; 0-based line of the file

  /** The rows printed before the script stopped, and why it stopped early. */
  datatype Run = Run(rows: seq<Row>, failure: Option<Failure>)

  const Header: seq<string> := ["rrs_library_id", "taxon_level", "taxon_id", "tally"]

  /** The library ids: the header's whitespace-separated tokens from the third on. */
  function LibraryIds(header: string): (ids: seq<string>)
    ensures |SplitWs(header)| >= 2 ==> ids == SplitWs(header)[2..]
    ensures |SplitWs(header)| < 2 ==> ids == []
  {
    var t := SplitWs(header);
    if |t| >= 2 then t[2..] else []
  }

  /**
   * A header of two leading columns and the library columns, separated by
   * any whitespace runs, gives back exactly the library columns, in order.
   */
  lemma LibraryIdsOfHeader(gaps: seq<string>, first: string, second: string, libs: seq<string>)
    requires Separators(gaps, |libs| + 2)
    requires first != "" && NoSpace(first) && second != "" && NoSpace(second)
    requires forall i | 0 <= i < |libs| :: libs[i] != "" && NoSpace(libs[i])
    ensures LibraryIds(Weave(gaps, [first, second] + libs)) == libs
  {
    var words := [first, second] + libs;
    assert forall i | 2 <= i < |words| :: words[i] == libs[i - 2];
    SplitWsWeave(gaps, words);
    assert words[2..] == libs;
  }

  /** The row for one (library, tally) pair, if the tally string is not "0". */
  function Cell(library: string, taxon: string, tally: string): seq<Row>
  {
    if tally != "0" then [Row(library, "unique", taxon, tally)] else []
  }

  /** The rows of the first `n` pairs of `zip(libs, tallies)`. */
  function Emit(libs: seq<string>, taxon: string, tallies: seq<string>, n: nat): seq<Row>
    requires n <= Min(|libs|, |tallies|)
  {
    if n == 0 then [] else Emit(libs, taxon, tallies, n - 1) + Cell(libs[n - 1], taxon, tallies[n - 1])
  }

  /** The rows of one data line's tokens (at least two). */
  function LineRows(libs: seq<string>, tokens: seq<string>): seq<Row>
    requires |tokens| >= 2
  {
    var tallies := tokens[2..];
    Emit(libs, tokens[0], tallies, Min(|libs|, |tallies|))
  }

  /**
   * The data lines `data`, which start at line `first` of the file, processed
   * in order; the first short line stops the run.
   */
  function DataRun(libs: seq<string>, data: seq<string>, first: nat): (r: Run)
    decreases |data|
  {
    if data == [] then Run([], None)
    else
      var j := |data| - 1;
      var prev := DataRun(libs, data[..j], first);
      if prev.failure.Some? then prev
      else
        var tokens := SplitWs(data[j]);
        if |tokens| < 2 then Run(prev.rows, Some(ShortLine(first + j)))
        else Run(prev.rows + LineRows(libs, tokens), None)
  }

  /** The whole script over the lines of the input file. */
  function Pivot(lines: seq<string>): Run
  {
    if lines == [] then Run([], Some(NoHeader))
    else DataRun(LibraryIds(lines[0]), lines[1..], 1)
  }

  /** The output text: the header line (once the header was read) and one tab-joined line per row. */
  function Output(lines: seq<string>): (out: seq<string>)
  {
    if lines == [] then []
    else [Join(Header, '\t')] + FormatRows(Pivot(lines).rows)
  }

  function FormatRow(r: Row): string
  {
    Join([r.library, r.level, r.taxon, r.tally], '\t')
  }

  function FormatRows(rows: seq<Row>): (out: seq<string>)
    ensures |out| == |rows|
    ensures forall i | 0 <= i < |rows| :: out[i] == FormatRow(rows[i])
  {
    seq(|rows|, i requires 0 <= i < |rows| => FormatRow(rows[i]))
  }

  /**
   * The nested loops of `main` (pivot_count_table.py:8-18): the rows are
   * appended one at a time, and a short line ends the run.
   */
  method PivotCountTable(lines: seq<string>) returns (rows: seq<Row>, failure: Option<Failure>)
    ensures Run(rows, failure) == Pivot(lines)
  {
    if lines == [] {
      return [], Some(NoHeader);
    }
    var libs := LibraryIds(lines[0]);
    var data := lines[1..];
    rows := [];
    failure := None;
    var j := 0;
    while j < |data|
      invariant 0 <= j <= |data|
      invariant DataRun(libs, data[..j], 1) == Run(rows, None)
    {
      var tokens := SplitWs(data[j]);
      if |tokens| < 2 {
        failure := Some(ShortLine(1 + j));
        ExtendFailed(libs, data, j);
        return;
      }
      ExtendRows(libs, data, j);
      rows := EmitLine(rows, libs, tokens[0], tokens[2..]);
      j := j + 1;
    }
    assert data[..j] == data;
  }

  /** The inner loop over `zip(libs, tallies)` of one data line. */
  method EmitLine(before: seq<Row>, libs: seq<string>, taxon: string, tallies: seq<string>) returns (rows: seq<Row>)
    ensures rows == before + Emit(libs, taxon, tallies, Min(|libs|, |tallies|))
  {
    var n := Min(|libs|, |tallies|);
    rows := before;
    var k := 0;
    while k < n
      invariant 0 <= k <= n
      invariant rows == before + Emit(libs, taxon, tallies, k)
    {
      if tallies[k] != "0" {
        rows := rows + [Row(libs[k], "unique", taxon, tallies[k])];
      }
      k := k + 1;
    }
  }

  lemma ExtendRows(libs: seq<string>, data: seq<string>, j: nat)
    requires j < |data| && DataRun(libs, data[..j], 1).failure.None?
    requires |SplitWs(data[j])| >= 2
    ensures DataRun(libs, data[..j + 1], 1) == Run(DataRun(libs, data[..j], 1).rows + LineRows(libs, SplitWs(data[j])), None)
  {
    assert data[..j + 1][..j] == data[..j];
  }

  lemma ExtendFailed(libs: seq<string>, data: seq<string>, j: nat)
    requires j < |data| && DataRun(libs, data[..j], 1).failure.None?
    requires |SplitWs(data[j])| < 2
    ensures DataRun(libs, data, 1) == Run(DataRun(libs, data[..j], 1).rows, Some(ShortLine(1 + j)))
  {
    assert data[..j + 1][..j] == data[..j];
    FailureSticks(libs, data, 1, j + 1);
  }

  /** Once a run has failed, later lines change nothing. */
  lemma {:induction false} FailureSticks(libs: seq<string>, data: seq<string>, first: nat, j: nat)
    requires j <= |data| && DataRun(libs, data[..j], first).failure.Some?
    ensures DataRun(libs, data, first) == DataRun(libs, data[..j], first)
    decreases |data| - j
  {
    if j < |data| {
      assert data[..j + 1][..j] == data[..j];
      FailureSticks(libs, data, first, j + 1);
    } else {
      assert data[..j] == data;
    }
  }

  // Properties of the emitted rows.

  /** Every row of a line carries level "unique", the line's taxon, and a tally that is not "0", paired by position. */
  lemma {:induction false} EmitSound(libs: seq<string>, taxon: string, tallies: seq<string>, n: nat, r: Row)
    requires n <= Min(|libs|, |tallies|) && r in Emit(libs, taxon, tallies, n)
    ensures r.level == "unique" && r.taxon == taxon && r.tally != "0"
    ensures exists k | 0 <= k < n :: r.library == libs[k] && r.tally == tallies[k]
  {
    if r in Emit(libs, taxon, tallies, n - 1) {
      EmitSound(libs, taxon, tallies, n - 1, r);
    } else {
      assert r.library == libs[n - 1] && r.tally == tallies[n - 1];
    }
  }

  /** Every pair whose tally is not "0" is emitted. */
  lemma {:induction false} EmitComplete(libs: seq<string>, taxon: string, tallies: seq<string>, n: nat, k: nat)
    requires n <= Min(|libs|, |tallies|) && k < n && tallies[k] != "0"
    ensures Row(libs[k], "unique", taxon, tallies[k]) in Emit(libs, taxon, tallies, n)
  {
    if k < n - 1 {
      EmitComplete(libs, taxon, tallies, n - 1, k);
    }
  }

  /** One row per non-zero pair. */
  function NonZero(tallies: seq<string>, n: nat): nat
    requires n <= |tallies|
  {
    if n == 0 then 0 else NonZero(tallies, n - 1) + (if tallies[n - 1] != "0" then 1 else 0)
  }

  lemma {:induction false} EmitCount(libs: seq<string>, taxon: string, tallies: seq<string>, n: nat)
    requires n <= Min(|libs|, |tallies|)
    ensures |Emit(libs, taxon, tallies, n)| == NonZero(tallies, n)
  {
    if n > 0 {
      EmitCount(libs, taxon, tallies, n - 1);
    }
  }

  /** The rows of a successful run are the rows of its lines, in line order. */
  lemma {:induction false} DataRunAppends(libs: seq<string>, data: seq<string>, first: nat, line: string)
    requires DataRun(libs, data, first).failure.None? && |SplitWs(line)| >= 2
    ensures DataRun(libs, data + [line], first)
      == Run(DataRun(libs, data, first).rows + LineRows(libs, SplitWs(line)), None)
  {
    assert (data + [line])[..|data|] == data;
  }

  /**
   * Row `r` comes from data line `line`: the line has at least two tokens,
   * `r` names its first token as the taxon, and pairs a library id with the
   * tally at the same position.
   */
  predicate FromLine(libs: seq<string>, line: string, r: Row)
  {
    var tokens := SplitWs(line);
    |tokens| >= 2 && r.taxon == tokens[0] &&
    exists k | 0 <= k < Min(|libs|, |tokens| - 2) :: r.library == libs[k] && r.tally == tokens[k + 2]
  }

  /**
   * Soundness of a run: every printed row has level "unique", a tally other
   * than "0", and comes from some data line.
   */
  lemma {:induction false} DataRunSound(libs: seq<string>, data: seq<string>, first: nat, r: Row)
    requires r in DataRun(libs, data, first).rows
    ensures r.level == "unique" && r.tally != "0"
    ensures exists j | 0 <= j < |data| :: FromLine(libs, data[j], r)
    decreases |data|
  {
    var j := |data| - 1;
    var prev := DataRun(libs, data[..j], first);
    if r in prev.rows {
      DataRunSound(libs, data[..j], first, r);
      var i :| 0 <= i < j && FromLine(libs, data[..j][i], r);
      assert data[..j][i] == data[i];
    } else {
      LineRowSound(libs, data[j], r);
    }
  }

  lemma LineRowSound(libs: seq<string>, line: string, r: Row)
    requires |SplitWs(line)| >= 2 && r in LineRows(libs, SplitWs(line))
    ensures r.level == "unique" && r.tally != "0" && FromLine(libs, line, r)
  {
    var tokens := SplitWs(line);
    var tallies := tokens[2..];
    EmitSound(libs, tokens[0], tallies, Min(|libs|, |tallies|), r);
    var k :| 0 <= k < Min(|libs|, |tallies|) && r.library == libs[k] && r.tally == tallies[k];
    assert r.tally == tokens[k + 2];
  }

  /**
   * Completeness of a successful run: for every data line and every position
   * within both the library ids and the line's tallies, a tally other than
   * "0" is printed with its library id and the line's taxon.
   */
  lemma {:induction false} DataRunComplete(libs: seq<string>, data: seq<string>, first: nat, j: nat, k: nat)
    requires DataRun(libs, data, first).failure.None?
    requires j < |data| && |SplitWs(data[j])| >= 2
    requires k < |libs| && k + 2 < |SplitWs(data[j])| && SplitWs(data[j])[k + 2] != "0"
    ensures Row(libs[k], "unique", SplitWs(data[j])[0], SplitWs(data[j])[k + 2]) in DataRun(libs, data, first).rows
    decreases |data|
  {
    var last := |data| - 1;
    var prev := DataRun(libs, data[..last], first);
    if prev.failure.Some? {
      assert false;
    }
    if j < last {
      assert data[..last][j] == data[j];
      DataRunComplete(libs, data[..last], first, j, k);
    } else {
      var tokens := SplitWs(data[j]);
      EmitComplete(libs, tokens[0], tokens[2..], Min(|libs|, |tokens| - 2), k);
    }
  }

  /** A run succeeds exactly when every data line has at least two tokens. */
  lemma {:induction false} DataRunSucceeds(libs: seq<string>, data: seq<string>, first: nat)
    ensures DataRun(libs, data, first).failure.None? <==> forall j | 0 <= j < |data| :: |SplitWs(data[j])| >= 2
    decreases |data|
  {
    if data != [] {
      var last := |data| - 1;
      DataRunSucceeds(libs, data[..last], first);
      assert forall i | 0 <= i < last :: data[..last][i] == data[i];
    }
  }

  /**
   * A run fails at the first data line with fewer than two tokens, having
   * printed the rows of the lines before it.
   */
  lemma FailsAtFirstShortLine(libs: seq<string>, data: seq<string>, first: nat, j: nat)
    requires j < |data| && |SplitWs(data[j])| < 2
    requires forall i | 0 <= i < j :: |SplitWs(data[i])| >= 2
    ensures DataRun(libs, data, first) == Run(DataRun(libs, data[..j], first).rows, Some(ShortLine(first + j)))
  {
    assert forall i | 0 <= i < j :: data[..j][i] == data[i];
    DataRunSucceeds(libs, data[..j], first);
    assert data[..j + 1][..j] == data[..j];
    assert data[..j + 1][j] == data[j];
    FailureSticks(libs, data, first, j + 1);
  }

  /** The fields of every printed row are single tokens when the library ids are. */
  lemma {:induction false} RowsAreTokens(libs: seq<string>, data: seq<string>, first: nat, r: Row)
    requires forall k | 0 <= k < |libs| :: NoSpace(libs[k])
    requires r in DataRun(libs, data, first).rows
    ensures NoSpace(r.library) && NoSpace(r.level) && NoSpace(r.taxon) && NoSpace(r.tally)
    decreases |data|
  {
    var j := |data| - 1;
    if r in DataRun(libs, data[..j], first).rows {
      RowsAreTokens(libs, data[..j], first, r);
    } else {
      LineRowsAreTokens(libs, SplitWs(data[j]), r);
    }
  }

  lemma LineRowsAreTokens(libs: seq<string>, tokens: seq<string>, r: Row)
    requires forall k | 0 <= k < |libs| :: NoSpace(libs[k])
    requires |tokens| >= 2 && forall i | 0 <= i < |tokens| :: NoSpace(tokens[i])
    requires r in LineRows(libs, tokens)
    ensures NoSpace(r.library) && NoSpace(r.level) && NoSpace(r.taxon) && NoSpace(r.tally)
  {
    var tallies := tokens[2..];
    EmitSound(libs, tokens[0], tallies, Min(|libs|, |tallies|), r);
    var k :| 0 <= k < Min(|libs|, |tallies|) && r.library == libs[k] && r.tally == tallies[k];
    assert r.tally == tokens[k + 2];
  }

  /** The printed output starts with the tab-separated header, which splits back into the four column names. */
  lemma OutputStartsWithHeader(lines: seq<string>)
    requires lines != []
    ensures |Output(lines)| == |Pivot(lines).rows| + 1
    ensures Split(Output(lines)[0], '\t') == Header
  {
    SplitJoin(Header, '\t');
  }

  /** Every printed row line splits on tab back into library, "unique", taxon and tally. */
  lemma OutputRowsParseBack(lines: seq<string>, i: nat)
    requires lines != [] && i < |Pivot(lines).rows|
    ensures Split(Output(lines)[i + 1], '\t') == [Pivot(lines).rows[i].library, "unique", Pivot(lines).rows[i].taxon, Pivot(lines).rows[i].tally]
  {
    var r := Pivot(lines).rows[i];
    var libs := LibraryIds(lines[0]);
    assert r in DataRun(libs, lines[1..], 1).rows;
    assert forall k | 0 <= k < |libs| :: libs[k] == SplitWs(lines[0])[k + 2];
    RowsAreTokens(libs, lines[1..], 1, r);
    DataRunSound(libs, lines[1..], 1, r);
    assert Output(lines)[i + 1] == FormatRow(r);
    RowLineParsesBack(r);
  }

  /** A row of whitespace-free fields joins into a line that splits back into them. */
  lemma RowLineParsesBack(r: Row)
    requires NoSpace(r.library) && NoSpace(r.level) && NoSpace(r.taxon) && NoSpace(r.tally)
    ensures Split(FormatRow(r), '\t') == [r.library, r.level, r.taxon, r.tally]
  {
    NoTab(r.library);
    NoTab(r.level);
    NoTab(r.taxon);
    NoTab(r.tally);
    SplitJoin([r.library, r.level, r.taxon, r.tally], '\t');
  }

  /** A whitespace-free token holds no tab. */
  lemma NoTab(t: string)
    requires NoSpace(t)
    ensures '\t' !in t
  {
  }
}
