/**
 * The last two steps of the QC script as written (scripts/qc_hplc.py:24-34),
 * where pandas decides the shape of the table and where each row's plate
 * counts come from:
 *
 * - `groupby(...).apply(retention_deviation)` stacks the runs' deviation
 *   series into one long series only when their molecule indexes differ;
 *   when every run returns the same index it gives a wide frame, and
 *   `.to_frame()` then fails;
 * - the plate columns are assigned from a frame indexed by
 *   (injection_id, molecule_id, channel) onto one indexed by
 *   (injection_id, channel, molecule_id). The assignment matches index
 *   tuples position by position, so a row gets the plates of the peak whose
 *   molecule id is the row's channel and whose channel is the row's
 *   molecule id, and NaN when there is none.
 *
 * `HplcQc.QcTable` is the table the script evidently means; this module
 * models what the script computes and relates the two.
 */
module HplcQcAlignment {
  import opened Wrappers
  import opened Floats
  import opened HplcQc

  /** Why the script stops before writing its table. */
  datatype Failure = WideFrame

  /** The molecule index `retention_deviation` returns for one run: its usable peaks' ids, in table order. */
  function RunIndex(peaks: seq<Peak>, constants: map<string, Value>, run: RunKey): (ids: seq<string>)
  {
    var kept := UsableOnly(RunPeaks(peaks, constants, run));
    seq(|kept|, i requires 0 <= i < |kept| => kept[i].peak.moleculeId)
  }

  /** Every run's deviation series has the same molecule index as the first run's. */
  predicate AllIndexedSame(peaks: seq<Peak>, constants: map<string, Value>, runs: seq<RunKey>)
    requires runs != []
  {
    forall k | 0 <= k < |runs| :: RunIndex(peaks, constants, runs[k]) == RunIndex(peaks, constants, runs[0])
  }

  /** A peak's key in the order of `peak`'s index: (injection_id, molecule_id, channel). */
  predicate KeyIs(p: Peak, a: string, b: string, c: string)
  {
    p.injectionId == a && p.moleculeId == b && p.channel == c
  }

  function PlatesOf(p: Peak): (Value, Value)
  {
    (PlatesHph(p.tip, p.width50), PlatesAh(p.tip, p.height, p.area))
  }

  /**
   * The plate pair `peak[['plates_hph', 'plates_ah']]` holds at the index
   * tuple (a, b, c), scanning the table in order.
   */
  function PlatesAt(peaks: seq<Peak>, a: string, b: string, c: string): (Value, Value)
  {
    if peaks == [] then (NaN, NaN)
    else if KeyIs(peaks[0], a, b, c) then PlatesOf(peaks[0])
    else PlatesAt(peaks[1..], a, b, c)
  }

  /** No peak has the key (a, b, c): the lookup gives two NaNs. */
  lemma {:induction false} PlatesAtMissing(peaks: seq<Peak>, a: string, b: string, c: string)
    requires forall i | 0 <= i < |peaks| :: !KeyIs(peaks[i], a, b, c)
    ensures PlatesAt(peaks, a, b, c) == (NaN, NaN)
  {
    if peaks != [] {
      assert forall i | 0 <= i < |peaks[1..]| :: peaks[1..][i] == peaks[i + 1];
      PlatesAtMissing(peaks[1..], a, b, c);
    }
  }

  /** Peak i is the first with the key (a, b, c): the lookup gives its plates. */
  lemma {:induction false} PlatesAtFirst(peaks: seq<Peak>, a: string, b: string, c: string, i: nat)
    requires i < |peaks| && KeyIs(peaks[i], a, b, c)
    requires forall j | 0 <= j < i :: !KeyIs(peaks[j], a, b, c)
    ensures PlatesAt(peaks, a, b, c) == PlatesOf(peaks[i])
  {
    if i > 0 {
      assert forall j | 0 <= j < i - 1 :: peaks[1..][j] == peaks[j + 1];
      assert peaks[1..][i - 1] == peaks[i];
      PlatesAtFirst(peaks[1..], a, b, c, i - 1);
    }
  }

  /**
   * The row after `out[['plates_hph', 'plates_ah']] = peak[...]`: `out`'s
   * index tuple is (injection_id, channel, molecule_id), and it is looked up
   * in `peak`'s index as it stands.
   */
  function Reindexed(peaks: seq<Peak>, row: QcRow): QcRow
  {
    var plates := PlatesAt(peaks, row.injectionId, row.channel, row.moleculeId);
    row.(platesHph := plates.0, platesAh := plates.1)
  }

  /**
   * The script's output for the runs in grouping order: it fails when every
   * run has the same molecule index, and otherwise holds `QcTable`'s rows,
   * keys and deviations, with plates looked up by position in `peak`'s index.
   */
  function QcTableAsWritten(peaks: seq<Peak>, constants: map<string, Value>, runs: seq<RunKey>): (r: Result<seq<QcRow>, Failure>)
    ensures r.Err? <==> runs != [] && AllIndexedSame(peaks, constants, runs)
    ensures r.Ok? ==> |r.value| == |QcTable(peaks, constants, runs)|
    ensures r.Ok? ==> forall k | 0 <= k < |r.value| ::
      var row := QcTable(peaks, constants, runs)[k];
      && r.value[k].injectionId == row.injectionId
      && r.value[k].moleculeId == row.moleculeId
      && r.value[k].channel == row.channel
      && r.value[k].retentionDeviation == row.retentionDeviation
      && (r.value[k].platesHph, r.value[k].platesAh) == PlatesAt(peaks, row.injectionId, row.channel, row.moleculeId)
  {
    if runs != [] && AllIndexedSame(peaks, constants, runs) then Err(WideFrame)
    else
      var t := QcTable(peaks, constants, runs);
      Ok(seq(|t|, k requires 0 <= k < |t| => Reindexed(peaks, t[k])))
  }

  // ---------------------------------------------------------------------------
  // Where the rows come from

  /** The row of a peak of the table, with some deviation. */
  predicate RowOfPeak(peaks: seq<Peak>, constants: map<string, Value>, runs: seq<RunKey>, row: QcRow)
  {
    exists p | p in peaks ::
      && RunOf(p) in runs
      && Usable(JoinConstant(constants, p))
      && row == QcRowOf(JoinConstant(constants, p), row.retentionDeviation)
  }

  /** Every row of one run is the row of a usable peak of that run. */
  lemma RunRowsFromPeaks(peaks: seq<Peak>, constants: map<string, Value>, run: RunKey, runs: seq<RunKey>)
    requires run in runs
    ensures forall k | 0 <= k < |RunRows(peaks, constants, run)| ::
      RowOfPeak(peaks, constants, runs, RunRows(peaks, constants, run)[k])
  {
    var rows := RunRows(peaks, constants, run);
    var js := RunPeaks(peaks, constants, run);
    var kept := UsableOnly(js);
    RunRowsExact(peaks, constants, run);
    forall k | 0 <= k < |rows| ensures RowOfPeak(peaks, constants, runs, rows[k]) {
      assert kept[k] in js;
      var m :| 0 <= m < |js| && js[m] == kept[k];
      var p := kept[k].peak;
      assert p in peaks && RunOf(p) == run && kept[k] == JoinConstant(constants, p);
    }
  }

  /**
   * The converse of `HplcQc.QcTableComplete`: every row of the table is the
   * row of a usable peak whose run is listed, with that peak's key and its
   * own plate counts.
   */
  lemma {:induction false} QcTableRowsFromPeaks(peaks: seq<Peak>, constants: map<string, Value>, runs: seq<RunKey>)
    ensures forall k | 0 <= k < |QcTable(peaks, constants, runs)| ::
      RowOfPeak(peaks, constants, runs, QcTable(peaks, constants, runs)[k])
  {
    if runs != [] {
      var head := RunRows(peaks, constants, runs[0]);
      var tail := QcTable(peaks, constants, runs[1..]);
      assert QcTable(peaks, constants, runs) == head + tail;
      RunRowsFromPeaks(peaks, constants, runs[0], runs);
      QcTableRowsFromPeaks(peaks, constants, runs[1..]);
      RowsOfPeaksConcat(peaks, constants, runs, head, tail);
    }
  }

  lemma RowsOfPeaksConcat(peaks: seq<Peak>, constants: map<string, Value>, runs: seq<RunKey>, head: seq<QcRow>, tail: seq<QcRow>)
    requires runs != []
    requires forall k | 0 <= k < |head| :: RowOfPeak(peaks, constants, runs, head[k])
    requires forall k | 0 <= k < |tail| :: RowOfPeak(peaks, constants, runs[1..], tail[k])
    ensures forall k | 0 <= k < |head + tail| :: RowOfPeak(peaks, constants, runs, (head + tail)[k])
  {
    forall k | 0 <= k < |head + tail| ensures RowOfPeak(peaks, constants, runs, (head + tail)[k]) {
      if k >= |head| {
        assert (head + tail)[k] == tail[k - |head|];
        RowOfLaterRun(peaks, constants, runs, tail[k - |head|]);
      }
    }
  }

  lemma RowOfLaterRun(peaks: seq<Peak>, constants: map<string, Value>, runs: seq<RunKey>, row: QcRow)
    requires runs != [] && RowOfPeak(peaks, constants, runs[1..], row)
    ensures RowOfPeak(peaks, constants, runs, row)
  {
    var p :| p in peaks && RunOf(p) in runs[1..] && Usable(JoinConstant(constants, p))
      && row == QcRowOf(JoinConstant(constants, p), row.retentionDeviation);
    assert RunOf(p) in runs;
  }

  // ---------------------------------------------------------------------------
  // The discrepancies

  /** No peak's molecule id is also a channel label. */
  predicate NoMoleculeNamedLikeChannel(peaks: seq<Peak>)
  {
    forall i, j | 0 <= i < |peaks| && 0 <= j < |peaks| :: peaks[i].moleculeId != peaks[j].channel
  }

  /** No peak's key has a channel label in its molecule-id place. */
  lemma ChannelKeyMissing(peaks: seq<Peak>, a: string, n: nat, m: string)
    requires NoMoleculeNamedLikeChannel(peaks) && n < |peaks|
    ensures PlatesAt(peaks, a, peaks[n].channel, m) == (NaN, NaN)
  {
    forall i | 0 <= i < |peaks| ensures !KeyIs(peaks[i], a, peaks[n].channel, m) {
      assert peaks[i].moleculeId != peaks[n].channel;
    }
    PlatesAtMissing(peaks, a, peaks[n].channel, m);
  }

  /** The script finds no plates for a row of a peak: `peak`'s index has no key with its channel in the molecule place. */
  lemma RowKeyMissing(peaks: seq<Peak>, constants: map<string, Value>, runs: seq<RunKey>, row: QcRow)
    requires NoMoleculeNamedLikeChannel(peaks) && RowOfPeak(peaks, constants, runs, row)
    ensures PlatesAt(peaks, row.injectionId, row.channel, row.moleculeId) == (NaN, NaN)
  {
    var p :| p in peaks && RunOf(p) in runs && Usable(JoinConstant(constants, p))
      && row == QcRowOf(JoinConstant(constants, p), row.retentionDeviation);
    var n :| 0 <= n < |peaks| && peaks[n] == p;
    assert row.channel == peaks[n].channel;
    ChannelKeyMissing(peaks, row.injectionId, n, row.moleculeId);
  }

  /**
   * Unless some molecule id is also a channel label, every plate cell the
   * script writes is NaN, while each row's key and deviation are those of
   * the intended table.
   */
  lemma PlatesLostWithoutCoincidence(peaks: seq<Peak>, constants: map<string, Value>, runs: seq<RunKey>)
    requires NoMoleculeNamedLikeChannel(peaks)
    requires QcTableAsWritten(peaks, constants, runs).Ok?
    ensures forall k | 0 <= k < |QcTableAsWritten(peaks, constants, runs).value| ::
      var row := QcTableAsWritten(peaks, constants, runs).value[k];
      row.platesHph == NaN && row.platesAh == NaN
  {
    var t := QcTable(peaks, constants, runs);
    var w := QcTableAsWritten(peaks, constants, runs).value;
    QcTableRowsFromPeaks(peaks, constants, runs);
    forall k | 0 <= k < |w| ensures w[k].platesHph == NaN && w[k].platesAh == NaN {
      RowKeyMissing(peaks, constants, runs, t[k]);
    }
  }

  /** A peak with finite measurements and a non-zero width and area. */
  predicate Measured(p: Peak)
  {
    && p.tip.Fin? && p.width50.Fin? && p.height.Fin? && p.area.Fin?
    && p.width50.r != 0.0 && p.area.r != 0.0
  }

  /** Peaks that are all measured give the intended table finite plate counts throughout. */
  lemma MeasuredPlatesFinite(peaks: seq<Peak>, constants: map<string, Value>, runs: seq<RunKey>)
    requires forall i | 0 <= i < |peaks| :: Measured(peaks[i])
    ensures forall k | 0 <= k < |QcTable(peaks, constants, runs)| ::
      QcTable(peaks, constants, runs)[k].platesHph.Fin? && QcTable(peaks, constants, runs)[k].platesAh.Fin?
  {
    var t := QcTable(peaks, constants, runs);
    QcTableRowsFromPeaks(peaks, constants, runs);
    forall k | 0 <= k < |t| ensures t[k].platesHph.Fin? && t[k].platesAh.Fin? {
      assert RowOfPeak(peaks, constants, runs, t[k]);
      var p :| p in peaks && RunOf(p) in runs && Usable(JoinConstant(constants, p))
        && t[k] == QcRowOf(JoinConstant(constants, p), t[k].retentionDeviation);
      assert Measured(p);
    }
  }

  /** Two runs of one channel, each with one standard. */
  function TwoRunPeaks(): seq<Peak>
  {
    [ Peak("1", "acetate", "A", Fin(2.0), Fin(0.5), Fin(10.0), Fin(4.0)),
      Peak("2", "butyrate", "A", Fin(3.0), Fin(0.5), Fin(10.0), Fin(4.0)) ]
  }

  function TwoRunConstants(): map<string, Value>
  {
    map["acetate" := Fin(1.0), "butyrate" := Fin(2.0)]
  }

  /** The one usable peak of a run is the only entry of its molecule index. */
  lemma {:induction false} SoleIndex(peaks: seq<Peak>, constants: map<string, Value>, n: nat)
    requires n < |peaks| && Usable(JoinConstant(constants, peaks[n]))
    requires forall i | 0 <= i < |peaks| && i != n :: RunOf(peaks[i]) != RunOf(peaks[n])
    ensures RunIndex(peaks, constants, RunOf(peaks[n])) != []
    ensures RunIndex(peaks, constants, RunOf(peaks[n]))[0] == peaks[n].moleculeId
  {
    var j := JoinConstant(constants, peaks[n]);
    var js := RunPeaks(peaks, constants, RunOf(peaks[n]));
    assert forall i | 0 <= i < |js| :: js[i] == j by {
      forall i | 0 <= i < |js| ensures js[i] == j {
        var m :| 0 <= m < |peaks| && peaks[m] == js[i].peak;
      }
    }
    assert j in js && j in UsableOnly(js);
    var kept := UsableOnly(js);
    assert kept[0] in js;
  }

  lemma TwoRunsNoCoincidence()
    ensures NoMoleculeNamedLikeChannel(TwoRunPeaks())
  {
  }

  /** The script's table of the two runs is written: their molecule indexes differ. */
  lemma TwoRunsWritten()
    ensures QcTableAsWritten(TwoRunPeaks(), TwoRunConstants(), [RunKey("1", "A"), RunKey("2", "A")]).Ok?
  {
    var peaks := TwoRunPeaks();
    var constants := TwoRunConstants();
    var runs := [RunKey("1", "A"), RunKey("2", "A")];
    assert RunOf(peaks[0]) == runs[0] && RunOf(peaks[1]) == runs[1];
    SoleIndex(peaks, constants, 0);
    SoleIndex(peaks, constants, 1);
    assert RunIndex(peaks, constants, runs[1]) != RunIndex(peaks, constants, runs[0]);
  }

  lemma TwoRunsUsable()
    ensures CountUsable(TwoRunPeaks(), TwoRunConstants()) == 2
  {
    var peaks := TwoRunPeaks();
    var constants := TwoRunConstants();
    assert Usable(JoinConstant(constants, peaks[0])) && Usable(JoinConstant(constants, peaks[1]));
    assert peaks[1..][1..] == [];
    assert CountUsable(peaks[1..], constants) == 1;
  }

  /** The intended table of the two runs has one row per peak, with finite plate counts. */
  lemma TwoRunsIntended()
    ensures var intended := QcTable(TwoRunPeaks(), TwoRunConstants(), [RunKey("1", "A"), RunKey("2", "A")]);
      && |intended| == 2
      && forall k | 0 <= k < 2 :: intended[k].platesHph.Fin? && intended[k].platesAh.Fin?
  {
    var peaks := TwoRunPeaks();
    var constants := TwoRunConstants();
    var runs := [RunKey("1", "A"), RunKey("2", "A")];
    assert RunKeysOf(peaks, runs);
    TwoRunsUsable();
    MeasuredTable(peaks, constants, runs);
  }

  lemma MeasuredTable(peaks: seq<Peak>, constants: map<string, Value>, runs: seq<RunKey>)
    requires RunKeysOf(peaks, runs) && forall i | 0 <= i < |peaks| :: Measured(peaks[i])
    ensures |QcTable(peaks, constants, runs)| == CountUsable(peaks, constants)
    ensures forall k | 0 <= k < |QcTable(peaks, constants, runs)| ::
      QcTable(peaks, constants, runs)[k].platesHph.Fin? && QcTable(peaks, constants, runs)[k].platesAh.Fin?
  {
    QcTableExact(peaks, constants, runs);
    MeasuredPlatesFinite(peaks, constants, runs);
  }

  /**
   * Two runs with different standards on channel "A": the intended table has
   * a row per peak with finite plate counts, while the script's table has
   * the same two rows with every plate cell NaN.
   */
  lemma TwoRunsPlatesLost()
    ensures var peaks := TwoRunPeaks();
      var runs := [RunKey("1", "A"), RunKey("2", "A")];
      var intended := QcTable(peaks, TwoRunConstants(), runs);
      var written := QcTableAsWritten(peaks, TwoRunConstants(), runs);
      && |intended| == 2
      && (forall k | 0 <= k < 2 :: intended[k].platesHph.Fin? && intended[k].platesAh.Fin?)
      && written.Ok? && |written.value| == 2
      && (forall k | 0 <= k < 2 :: written.value[k].platesHph == NaN && written.value[k].platesAh == NaN)
  {
    TwoRunsWritten();
    TwoRunsIntended();
    TwoRunsNoCoincidence();
    PlatesLostWithoutCoincidence(TwoRunPeaks(), TwoRunConstants(), [RunKey("1", "A"), RunKey("2", "A")]);
  }

  /**
   * A peak table holding a single run with a usable peak: the intended
   * table has a row per usable peak, at least one, while the script fails
   * at `.to_frame()`.
   */
  lemma OneRunFails(peaks: seq<Peak>, constants: map<string, Value>, p: Peak)
    requires p in peaks && Usable(JoinConstant(constants, p))
    requires RunKeysOf(peaks, [RunOf(p)])
    ensures QcTableAsWritten(peaks, constants, [RunOf(p)]) == Err(WideFrame)
    ensures |QcTable(peaks, constants, [RunOf(p)])| == CountUsable(peaks, constants) >= 1
  {
    QcTableExact(peaks, constants, [RunOf(p)]);
    QcTableComplete(peaks, constants, [RunOf(p)], p);
  }
}
