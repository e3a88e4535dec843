/**
 * The LC Solutions export parser (scripts/parse_lcs_export.py): a scan over
 * the lines of each exported file that finds, for every compound block, the
 * line range of its results table; the `--constant KEY=VALUE` options; and
 * the renaming of the export's columns.
 *
 * A line is a string as the file iterator yields it, terminator included.
 * Reading each block's table (pandas) is not modelled; which block ranges
 * are read from which file is.
 */
module LcsExport {
  import opened Wrappers
  import opened Text

  // ---------------------------------------------------------------------------
  // Column renaming (parse_lcs_export.py:20-62)

  /** COL_RENAME: the export columns kept, each with its output name, in order. */
  const ColumnRenames: seq<(string, string)> := [
    ("Ret. Time", "tip"),
    ("Area", "area"),
    ("Height", "height"),
    ("Peak Start", "left"),
    ("Peak End", "right"),
    ("Width(5%)", "width_05"),
    ("Width(10%)", "width_10"),
    ("Width(50%)", "width_50")
  ]

  /** COLS. */
  function ExportColumns(): (cols: seq<string>)
    ensures |cols| == |ColumnRenames|
    ensures forall k | 0 <= k < |cols| :: cols[k] == ColumnRenames[k].0
  {
    seq(|ColumnRenames|, k requires 0 <= k < |ColumnRenames| => ColumnRenames[k].0)
  }

  /** NAMES. */
  function OutputNames(): (names: seq<string>)
    ensures |names| == |ColumnRenames|
    ensures forall k | 0 <= k < |names| :: names[k] == ColumnRenames[k].1
  {
    seq(|ColumnRenames|, k requires 0 <= k < |ColumnRenames| => ColumnRenames[k].1)
  }

  /** `COLS, NAMES = zip(*COL_RENAME.items())`: zipping the two lists back gives the renaming. */
  lemma UnzipRoundTrip()
    ensures |ExportColumns()| == |OutputNames()| == |ColumnRenames|
    ensures seq(|ColumnRenames|, k requires 0 <= k < |ColumnRenames| => (ExportColumns()[k], OutputNames()[k])) == ColumnRenames
  {
  }

  predicate Distinct(xs: seq<string>)
  {
    forall i, j | 0 <= i < j < |xs| :: xs[i] != xs[j]
  }

  /** The renaming is one-to-one: no two export columns, and no two output names, coincide. */
  lemma RenamingIsOneToOne()
    ensures Distinct(ExportColumns()) && Distinct(OutputNames())
    ensures "molecule_id" !in OutputNames()
  {
    ColumnsDistinct();
    NamesDistinct();
  }

  lemma ColumnsDistinct()
    ensures Distinct(ExportColumns())
  {
    assert ExportColumns() == ["Ret. Time", "Area", "Height", "Peak Start", "Peak End", "Width(5%)", "Width(10%)", "Width(50%)"];
  }

  lemma NamesDistinct()
    ensures Distinct(OutputNames()) && "molecule_id" !in OutputNames()
  {
    assert OutputNames() == ["tip", "area", "height", "left", "right", "width_05", "width_10", "width_50"];
  }

  /** The output name of an export column, if the export column is kept. */
  function Rename(col: string): (r: Option<string>)
    ensures r.Some? <==> col in ExportColumns()
    ensures forall k | 0 <= k < |ColumnRenames| :: col == ColumnRenames[k].0 ==> r == Some(ColumnRenames[k].1)
  {
    RenamingIsOneToOne();
    if col in ExportColumns() then
      var k :| 0 <= k < |ColumnRenames| && ColumnRenames[k].0 == col;
      Some(ColumnRenames[k].1)
    else None
  }

  /**
   * `molecule_id` is the block name lower-cased: every upper-case letter
   * becomes its lower-case letter and every other character is kept.
   */
  function MoleculeId(blockName: string): (id: string)
    ensures |id| == |blockName|
    ensures forall i | 0 <= i < |id| :: !IsUpper(id[i])
    ensures forall i | 0 <= i < |id| :: !IsUpper(blockName[i]) ==> id[i] == blockName[i]
    ensures forall i | 0 <= i < |id| :: IsUpper(blockName[i]) ==> id[i] as int == blockName[i] as int + 32
  {
    Lower(blockName)
  }

  /** Block names that differ only in the case of their letters give one molecule id. */
  lemma MoleculeIdIgnoresCase(a: string, b: string)
    requires |a| == |b|
    requires forall i | 0 <= i < |a| :: a[i] == b[i] || (IsUpper(a[i]) && b[i] as int == a[i] as int + 32)
    ensures MoleculeId(a) == MoleculeId(b)
  {
  }

  /** The columns of the output table: the renamed ones, molecule_id, then the constants not already there. */
  function OutputColumns(constantKeys: seq<string>): (cols: seq<string>)
    ensures |cols| >= |OutputNames()| + 1
    ensures cols[..|OutputNames()| + 1] == OutputNames() + ["molecule_id"]
    ensures forall k | k in constantKeys :: k in cols
    ensures forall i | |OutputNames()| + 1 <= i < |cols| :: cols[i] in constantKeys && cols[i] !in OutputNames() + ["molecule_id"]
    ensures forall i, j | |OutputNames()| < i < j < |cols| :: cols[i] != cols[j]
    decreases |constantKeys|
  {
    if constantKeys == [] then OutputNames() + ["molecule_id"]
    else
      var front := OutputColumns(constantKeys[..|constantKeys| - 1]);
      var k := constantKeys[|constantKeys| - 1];
      assert forall j | j in constantKeys :: j == k || j in constantKeys[..|constantKeys| - 1];
      assert forall j | j in constantKeys[..|constantKeys| - 1] :: j in constantKeys;
      assert (front + [k])[..|OutputNames()| + 1] == front[..|OutputNames()| + 1];
      if k in front then front
      else
        assert k !in front[..|OutputNames()| + 1];
        front + [k]
  }

  // ---------------------------------------------------------------------------
  // --constant KEY=VALUE (parse_lcs_export.py:68-74, 122-123)

  /** A dict as Python keeps it: keys in first-insertion order, a later value replacing an earlier one. */
  datatype OrderedMap<V> = OrderedMap(keys: seq<string>, values: map<string, V>)
  {
    ghost predicate Valid()
    {
      Distinct(keys) && forall k :: k in values <==> k in keys
    }

    function Put(k: string, v: V): (r: OrderedMap<V>)
      ensures r.values == values[k := v]
      ensures k in values ==> r.keys == keys
      ensures k !in values ==> r.keys == keys + [k]
      ensures Valid() ==> r.Valid()
    {
      OrderedMap(if k in values then keys else keys + [k], values[k := v])
    }
  }

  function EmptyMap<V>(): (m: OrderedMap<V>)
    ensures m.Valid() && m.keys == []
  {
    OrderedMap([], map[])
  }

  /** The option at this position has no `=` to split at. */
  datatype ConstantError = MissingEquals(position: nat)

  /** `pair.split('=', 1)`: the key before the first `=`, the value (which may contain `=`) after it. */
  function SplitConstant(pair: string): (r: Option<(string, string)>)
    ensures r.None? <==> '=' !in pair
    ensures r.Some? ==> '=' !in r.value.0 && pair == r.value.0 + "=" + r.value.1
  {
    if '=' !in pair then None
    else
      var i := IndexOf(pair, '=');
      assert pair == pair[..i] + "=" + pair[i + 1..];
      Some((pair[..i], pair[i + 1..]))
  }

  /** `dict(pair.split('=', 1) for pair in args.constant)`. */
  function ParseConstants(pairs: seq<string>): (r: Result<OrderedMap<string>, ConstantError>)
    ensures r.Ok? ==> r.value.Valid()
    ensures r.Ok? <==> forall i | 0 <= i < |pairs| :: '=' in pairs[i]
    ensures r.Err? ==> r.error.position < |pairs| && '=' !in pairs[r.error.position]
    decreases |pairs|
  {
    if pairs == [] then Ok(EmptyMap())
    else
      var n := |pairs| - 1;
      assert forall i | 0 <= i < n :: pairs[..n][i] == pairs[i];
      match ParseConstants(pairs[..n])
      case Err(e) => Err(e)
      case Ok(m) =>
        match SplitConstant(pairs[n])
        case None => Err(MissingEquals(n))
        case Some(kv) => Ok(m.Put(kv.0, kv.1))
  }

  /** KEY=VALUE with a key free of `=` parses to that key and value, however many `=` the value holds. */
  lemma ConstantRoundTrip(key: string, value: string)
    requires '=' !in key
    ensures ParseConstants([key + "=" + value]) == Ok(EmptyMap<string>().Put(key, value))
  {
    var pair := key + "=" + value;
    assert pair[|key|] == '=';
    assert pair[..|key|] == key;
    IndexOfUnique(pair, '=', |key|);
    assert pair[|key| + 1..] == value;
    assert [pair][..0] == [];
  }

  /** A key given twice keeps its first position and its last value. */
  lemma {:induction false} LastConstantWins(pairs: seq<string>, key: string, value: string)
    requires ParseConstants(pairs).Ok? && '=' !in key
    ensures
      var r := ParseConstants(pairs + [key + "=" + value]);
      && r.Ok? && key in r.value.values && r.value.values[key] == value
      && (key in ParseConstants(pairs).value.values ==> r.value.keys == ParseConstants(pairs).value.keys)
  {
    var pair := key + "=" + value;
    assert pair[..|key|] == key;
    IndexOfUnique(pair, '=', |key|);
    assert pair[|key| + 1..] == value;
    assert (pairs + [pair])[..|pairs|] == pairs;
  }

  /** `full_data[key] = value` for every constant: each output row gets every constant's value. */
  function WithConstants(row: map<string, string>, constants: OrderedMap<string>): (r: map<string, string>)
    ensures forall k | k in constants.values :: k in r && r[k] == constants.values[k]
    ensures forall k | k in row && k !in constants.values :: k in r && r[k] == row[k]
    ensures r.Keys == row.Keys + constants.values.Keys
  {
    row + constants.values
  }

  // ---------------------------------------------------------------------------
  // The block scan (parse_lcs_export.py:82-102)

  /** The first and last line index of a block's table. */
  datatype Bounds = Bounds(start: int, stop: int)

  /** `line.startswith('ID')`. */
  predicate IsIdLine(line: string)
  {
    |line| >= 2 && line[..2] == "ID"
  }

  /** `line.startswith('Name')`. */
  predicate IsNameLine(line: string)
  {
    |line| >= 4 && line[..4] == "Name"
  }

  /** `line[5:-1]`: the line minus its first five characters and its last one, empty when too short. */
  function NameOf(line: string): (name: string)
    ensures |line| >= 6 ==> name == line[5..|line| - 1]
    ensures |line| < 7 ==> name == ""
  {
    if |line| >= 6 then line[5..|line| - 1] else ""
  }

  /** A `Name` line, one separator character, the name and the line terminator: the name is read back. */
  lemma NameLineRoundTrip(sep: char, name: string, end: char)
    ensures IsNameLine("Name" + [sep] + name + [end])
    ensures NameOf("Name" + [sep] + name + [end]) == name
  {
    var line := "Name" + [sep] + name + [end];
    assert line[..4] == "Name";
    assert line[5..|line| - 1] == name;
  }

  /** The loop variables `start`, `name` and the shared `mol_lines`. */
  datatype Scan = Scan(start: Option<int>, name: string, blocks: OrderedMap<Bounds>)

  /** The `assert start != None` at an ID line reached while a name is current. */
  datatype ScanError = StartMissing(line: nat)

  /** What one line does to the scan. */
  function Step(s: Scan, i: nat, line: string): Result<Scan, ScanError>
  {
    if IsIdLine(line) && s.name != "" && s.start.None? then Err(StartMissing(i))
    else
      var blocks :=
        if IsIdLine(line) && s.name != "" then s.blocks.Put(s.name, Bounds(s.start.value, i - 2)) else s.blocks;
      var start := if IsIdLine(line) then Some(i + 2) else s.start;
      var name := if IsNameLine(line) then NameOf(line) else s.name;
      Ok(Scan(start, name, blocks))
  }

  /** The scan after the given lines, the first error ending it. */
  function ScanLines(lines: seq<string>, s0: Scan): (r: Result<Scan, ScanError>)
    ensures s0.blocks.Valid() && r.Ok? ==> r.value.blocks.Valid()
    decreases |lines|
  {
    if lines == [] then Ok(s0)
    else
      var n := |lines| - 1;
      match ScanLines(lines[..n], s0)
      case Err(e) => Err(e)
      case Ok(s) => Step(s, n, lines[n])
  }

  /** How a file ends: its last block closed at the last line, or "No tables found". */
  datatype FileOutcome = Tables(blocks: OrderedMap<Bounds>) | NoTables(blocks: OrderedMap<Bounds>)

  function StartScan(blocks: OrderedMap<Bounds>): Scan
  {
    Scan(None, "", blocks)
  }

  /** One file's scan from fresh loop variables and the map so far, then the `else` of the loop. */
  function ScanFile(lines: seq<string>, blocks: OrderedMap<Bounds>): (r: Result<FileOutcome, ScanError>)
    ensures blocks.Valid() && r.Ok? ==> r.value.blocks.Valid()
  {
    match ScanLines(lines, StartScan(blocks))
    case Err(e) => Err(e)
    case Ok(s) =>
      if s.start.None? then Ok(NoTables(s.blocks))
      else Ok(Tables(s.blocks.Put(s.name, Bounds(s.start.value, |lines| - 1))))
  }

  lemma {:induction false} ScanErrorSticks(lines: seq<string>, s0: Scan, j: nat)
    requires j <= |lines| && ScanLines(lines[..j], s0).Err?
    ensures ScanLines(lines, s0) == ScanLines(lines[..j], s0)
    decreases |lines| - j
  {
    if j < |lines| {
      assert lines[..j + 1][..j] == lines[..j];
      ScanErrorSticks(lines, s0, j + 1);
    } else {
      assert lines[..j] == lines;
    }
  }

  /** The loop over one file's lines (parse_lcs_export.py:84-102). */
  method ScanFileLoop(lines: seq<string>, blocks: OrderedMap<Bounds>) returns (r: Result<FileOutcome, ScanError>)
    ensures r == ScanFile(lines, blocks)
  {
    var start: Option<int> := None;
    var name := "";
    var b := blocks;
    var i := 0;
    while i < |lines|
      invariant 0 <= i <= |lines|
      invariant ScanLines(lines[..i], StartScan(blocks)) == Ok(Scan(start, name, b))
    {
      assert lines[..i + 1][..i] == lines[..i];
      var line := lines[i];
      if IsIdLine(line) {
        if name != "" {
          if start.None? {
            ScanErrorSticks(lines, StartScan(blocks), i + 1);
            return Err(StartMissing(i));
          }
          b := b.Put(name, Bounds(start.value, i - 2));
        }
        start := Some(i + 2);
      }
      if IsNameLine(line) {
        name := NameOf(line);
      }
      i := i + 1;
    }
    assert lines[..|lines|] == lines;
    if start.None? {
      r := Ok(NoTables(b));
    } else {
      r := Ok(Tables(b.Put(name, Bounds(start.value, |lines| - 1))));
    }
  }

  // ---------------------------------------------------------------------------
  // What the scan computes, stated over the whole file

  /** Some line of `lines` starts with ID. */
  predicate HasIdLine(lines: seq<string>)
  {
    exists k | 0 <= k < |lines| :: IsIdLine(lines[k])
  }

  /** The last line of `lines` that starts with ID is at `k`. */
  predicate LastIdAt(lines: seq<string>, k: nat)
  {
    k < |lines| && IsIdLine(lines[k]) && forall j | k < j < |lines| :: !IsIdLine(lines[j])
  }

  /** The name of the last `Name` line, or "" when there is none. */
  function CurrentName(lines: seq<string>): string
    decreases |lines|
  {
    if lines == [] then ""
    else if IsNameLine(lines[|lines| - 1]) then NameOf(lines[|lines| - 1])
    else CurrentName(lines[..|lines| - 1])
  }

  /**
   * The scan's variables after a prefix: `start` is two past the last ID
   * line (None before the first), and `name` is that of the last Name line.
   */
  lemma {:induction false} ScanVariables(lines: seq<string>, blocks: OrderedMap<Bounds>)
    requires ScanLines(lines, StartScan(blocks)).Ok?
    ensures
      var s := ScanLines(lines, StartScan(blocks)).value;
      && s.name == CurrentName(lines)
      && (s.start.None? <==> !HasIdLine(lines))
      && (forall k | LastIdAt(lines, k) :: s.start == Some(k + 2))
    decreases |lines|
  {
    if lines != [] {
      var n := |lines| - 1;
      var front := lines[..n];
      assert forall j | 0 <= j < n :: front[j] == lines[j];
      ScanVariables(front, blocks);
      if !IsIdLine(lines[n]) {
        forall k | LastIdAt(lines, k) ensures LastIdAt(front, k) {
        }
      }
    }
  }

  /** A file without any ID line has no tables and leaves the map as it was. */
  lemma NoIdLineNoTables(lines: seq<string>, blocks: OrderedMap<Bounds>)
    requires !HasIdLine(lines)
    ensures ScanFile(lines, blocks) == Ok(NoTables(blocks))
  {
    NoIdLineKeepsBlocks(lines, blocks);
    ScanVariables(lines, blocks);
  }

  lemma {:induction false} NoIdLineKeepsBlocks(lines: seq<string>, blocks: OrderedMap<Bounds>)
    requires !HasIdLine(lines)
    ensures ScanLines(lines, StartScan(blocks)).Ok?
    ensures ScanLines(lines, StartScan(blocks)).value.blocks == blocks
    ensures ScanLines(lines, StartScan(blocks)).value.start.None?
    decreases |lines|
  {
    if lines != [] {
      var n := |lines| - 1;
      assert forall j | 0 <= j < n :: lines[..n][j] == lines[j];
      NoIdLineKeepsBlocks(lines[..n], blocks);
      assert !IsIdLine(lines[n]);
    }
  }

  /** The first ID line of `lines` is at `k`. */
  predicate FirstIdAt(lines: seq<string>, k: nat)
  {
    k < |lines| && IsIdLine(lines[k]) && forall j | 0 <= j < k :: !IsIdLine(lines[j])
  }

  /** A Name line giving a non-empty name comes before the first ID line. */
  ghost predicate NameBeforeFirstId(lines: seq<string>)
  {
    exists k: nat | FirstIdAt(lines, k) :: CurrentName(lines[..k]) != ""
  }

  /** One more line adds a name before the first ID line only when it is that first ID line. */
  lemma NameBeforeFirstIdStep(lines: seq<string>)
    requires lines != []
    ensures NameBeforeFirstId(lines) <==>
      NameBeforeFirstId(lines[..|lines| - 1])
      || (IsIdLine(lines[|lines| - 1]) && !HasIdLine(lines[..|lines| - 1]) && CurrentName(lines[..|lines| - 1]) != "")
  {
    var n := |lines| - 1;
    var front := lines[..n];
    assert forall j | 0 <= j < n :: front[j] == lines[j];
    forall k: nat | FirstIdAt(front, k) ensures FirstIdAt(lines, k) && lines[..k] == front[..k] {
    }
    if NameBeforeFirstId(lines) {
      var k: nat :| FirstIdAt(lines, k) && CurrentName(lines[..k]) != "";
      if k < n {
        assert FirstIdAt(front, k) && front[..k] == lines[..k];
      } else {
        assert front == lines[..k];
      }
    }
    if NameBeforeFirstId(front) {
      var k: nat :| FirstIdAt(front, k) && CurrentName(front[..k]) != "";
      assert FirstIdAt(lines, k) && lines[..k] == front[..k];
    }
    if IsIdLine(lines[n]) && !HasIdLine(front) && CurrentName(front) != "" {
      assert FirstIdAt(lines, n) && lines[..n] == front;
    }
  }

  /**
   * The scan fails exactly when a Name line giving a non-empty name comes
   * before the first ID line (and an ID line follows).
   */
  lemma {:induction false} ScanFailsIffNameBeforeFirstId(lines: seq<string>, blocks: OrderedMap<Bounds>)
    ensures ScanLines(lines, StartScan(blocks)).Err? <==> NameBeforeFirstId(lines)
    decreases |lines|
  {
    if lines != [] {
      var front := lines[..|lines| - 1];
      ScanFailsIffNameBeforeFirstId(front, blocks);
      NameBeforeFirstIdStep(lines);
      if ScanLines(front, StartScan(blocks)).Ok? {
        ScanVariables(front, blocks);
      }
    }
  }

  /**
   * An ID line at `i` closes the block of the name then current: after it,
   * that name's bounds run from two past the previous ID line to i − 2.
   */
  lemma IdLineClosesBlock(lines: seq<string>, blocks: OrderedMap<Bounds>, k: nat, i: nat)
    requires i < |lines| && IsIdLine(lines[i]) && LastIdAt(lines[..i], k)
    requires CurrentName(lines[..i]) != ""
    requires ScanLines(lines[..i + 1], StartScan(blocks)).Ok?
    ensures CurrentName(lines[..i]) in ScanLines(lines[..i + 1], StartScan(blocks)).value.blocks.values
    ensures ScanLines(lines[..i + 1], StartScan(blocks)).value.blocks.values[CurrentName(lines[..i])]
      == Bounds(k + 2, i - 2)
  {
    assert lines[..i + 1][..i] == lines[..i];
    ScanVariables(lines[..i], blocks);
  }

  /** After the last line, the current name's block runs from two past the last ID line to the last line. */
  lemma LastBlockClosedAtEnd(lines: seq<string>, blocks: OrderedMap<Bounds>, k: nat)
    requires LastIdAt(lines, k) && ScanFile(lines, blocks).Ok?
    ensures ScanFile(lines, blocks).value.Tables?
    ensures CurrentName(lines) in ScanFile(lines, blocks).value.blocks.values
    ensures ScanFile(lines, blocks).value.blocks.values[CurrentName(lines)] == Bounds(k + 2, |lines| - 1)
  {
    ScanVariables(lines, blocks);
  }

  /** The map is never cleared: every name recorded before a file is still recorded after it. */
  lemma {:induction false} ScanKeepsNames(lines: seq<string>, blocks: OrderedMap<Bounds>)
    requires ScanLines(lines, StartScan(blocks)).Ok?
    ensures blocks.values.Keys <= ScanLines(lines, StartScan(blocks)).value.blocks.values.Keys
    decreases |lines|
  {
    if lines != [] {
      ScanKeepsNames(lines[..|lines| - 1], blocks);
    }
  }

  // ---------------------------------------------------------------------------
  // Several files (parse_lcs_export.py:82-113)

  /** One `pd.read_table(path, skiprows=start, nrows=stop - start)` of a block, by file position. */
  datatype Read = Read(file: nat, molecule: string, bounds: Bounds)

  /** The shared map, the block requests issued so far, and the files reported as having no tables. */
  datatype Export = Export(blocks: OrderedMap<Bounds>, requests: seq<Read>, noTables: seq<nat>)

  /** A read of every block in the map, in its order, from file `f`. */
  function ReadsOf(f: nat, blocks: OrderedMap<Bounds>): (rs: seq<Read>)
    requires blocks.Valid()
    ensures |rs| == |blocks.keys|
    ensures forall j | 0 <= j < |rs| ::
      rs[j].file == f && rs[j].molecule == blocks.keys[j] && rs[j].bounds == blocks.values[blocks.keys[j]]
    ensures forall m | m in blocks.values :: exists j | 0 <= j < |rs| :: rs[j].molecule == m && rs[j].bounds == blocks.values[m]
    ensures forall i, j | 0 <= i < j < |rs| :: rs[i].molecule != rs[j].molecule
  {
    seq(|blocks.keys|, j requires 0 <= j < |blocks.keys| =>
      Read(f, blocks.keys[j], blocks.values[blocks.keys[j]]))
  }

  /**
   * The files as the code processes them: one map for all files, and after
   * each file with tables a read of every block in the map so far.
   */
  function ExportAsWritten(files: seq<seq<string>>): (r: Result<Export, ScanError>)
    ensures r.Ok? ==> r.value.blocks.Valid()
    decreases |files|
  {
    if files == [] then Ok(Export(EmptyMap(), [], []))
    else
      var f := |files| - 1;
      match ExportAsWritten(files[..f])
      case Err(e) => Err(e)
      case Ok(x) => AfterFile(x, f, ScanFile(files[f], x.blocks))
  }

  /** The export after file `f` has been scanned with the given outcome. */
  function AfterFile(x: Export, f: nat, outcome: Result<FileOutcome, ScanError>): (r: Result<Export, ScanError>)
    requires outcome.Ok? ==> outcome.value.blocks.Valid()
    ensures r.Ok? ==> r.value.blocks.Valid()
  {
    match outcome
    case Err(e) => Err(e)
    case Ok(NoTables(b)) => Ok(Export(b, x.requests, x.noTables + [f]))
    case Ok(Tables(b)) => Ok(Export(b, x.requests + ReadsOf(f, b), x.noTables))
  }

  lemma ExportNextFile(files: seq<seq<string>>, f: nat, x: Export)
    requires f < |files| && ExportAsWritten(files[..f]) == Ok(x)
    ensures ExportAsWritten(files[..f + 1]) == AfterFile(x, f, ScanFile(files[f], x.blocks))
  {
    assert files[..f + 1][..f] == files[..f];
  }

  lemma {:induction false} ExportErrorSticks(files: seq<seq<string>>, j: nat)
    requires j <= |files| && ExportAsWritten(files[..j]).Err?
    ensures ExportAsWritten(files) == ExportAsWritten(files[..j])
    decreases |files| - j
  {
    if j < |files| {
      assert files[..j + 1][..j] == files[..j];
      ExportErrorSticks(files, j + 1);
    } else {
      assert files[..j] == files;
    }
  }

  /** The loop over the input files (parse_lcs_export.py:82-113). */
  method ParseExport(files: seq<seq<string>>) returns (r: Result<Export, ScanError>)
    ensures r == ExportAsWritten(files)
  {
    var blocks: OrderedMap<Bounds> := EmptyMap();
    var requests: seq<Read> := [];
    var noTables: seq<nat> := [];
    var f := 0;
    while f < |files|
      invariant 0 <= f <= |files|
      invariant ExportAsWritten(files[..f]) == Ok(Export(blocks, requests, noTables))
    {
      ExportNextFile(files, f, Export(blocks, requests, noTables));
      var outcome := ScanFileLoop(files[f], blocks);
      match outcome {
        case Err(e) =>
          ExportErrorSticks(files, f + 1);
          return Err(e);
        case Ok(NoTables(b)) =>
          blocks := b;
          noTables := noTables + [f];
        case Ok(Tables(b)) =>
          blocks := b;
          requests := requests + ReadsOf(f, b);
      }
      f := f + 1;
    }
    assert files[..|files|] == files;
    r := Ok(Export(blocks, requests, noTables));
  }

  /** The blocks a file's own scan finds, from an empty map. */
  function OwnBlocks(lines: seq<string>): (b: OrderedMap<Bounds>)
    requires ScanFile(lines, EmptyMap()).Ok?
    ensures b.Valid()
  {
    ScanFile(lines, EmptyMap()).value.blocks
  }

  /** Every file scans without error on its own. */
  predicate ScansCleanly(files: seq<seq<string>>)
  {
    forall f | 0 <= f < |files| :: ScanFile(files[f], EmptyMap()).Ok?
  }

  /**
   * The requests with a fresh map per file: each file's table blocks, read
   * from that file.
   */
  function ExportPerFile(files: seq<seq<string>>): (requests: seq<Read>)
    requires ScansCleanly(files)
    ensures forall j | 0 <= j < |requests| ::
      requests[j].file < |files| && requests[j].molecule in OwnBlocks(files[requests[j].file]).values
      && requests[j].bounds == OwnBlocks(files[requests[j].file]).values[requests[j].molecule]
    decreases |files|
  {
    if files == [] then []
    else
      var f := |files| - 1;
      var front := files[..f];
      assert forall g | 0 <= g < f :: front[g] == files[g];
      var earlier := ExportPerFile(front);
      match ScanFile(files[f], EmptyMap())
      case Ok(Tables(b)) => earlier + ReadsOf(f, b)
      case _ => earlier
  }

  /** Some request reads molecule `m` of file `f` at `bounds`. */
  predicate Requested(requests: seq<Read>, f: nat, m: string, bounds: Bounds)
  {
    exists j | 0 <= j < |requests| :: requests[j] == Read(f, m, bounds)
  }

  /** Every table block of the first `n` files is requested from its own file, at its own bounds. */
  predicate RequestsBlocks(files: seq<seq<string>>, requests: seq<Read>, n: nat)
    requires n <= |files| && ScansCleanly(files)
  {
    forall f, m | 0 <= f < n && ScanFile(files[f], EmptyMap()).value.Tables? && m in OwnBlocks(files[f]).values ::
      Requested(requests, f, m, OwnBlocks(files[f]).values[m])
  }

  /** Files are requested in order, and no (file, molecule) pair twice. */
  predicate RequestedOnce(requests: seq<Read>)
  {
    forall i, j | 0 <= i < j < |requests| ::
      requests[i].file < requests[j].file || (requests[i].file == requests[j].file && requests[i].molecule != requests[j].molecule)
  }

  /**
   * With a fresh map per file, every table block of every file is requested
   * from that file at that file's bounds, and no block of a file twice.
   */
  lemma ExportPerFileExact(files: seq<seq<string>>)
    requires ScansCleanly(files)
    ensures forall f, m | 0 <= f < |files| && ScanFile(files[f], EmptyMap()).value.Tables? && m in OwnBlocks(files[f]).values ::
      Requested(ExportPerFile(files), f, m, OwnBlocks(files[f]).values[m])
    ensures RequestedOnce(ExportPerFile(files))
  {
    PerFileInduction(files);
  }

  lemma {:induction false} PerFileInduction(files: seq<seq<string>>)
    requires ScansCleanly(files)
    ensures RequestsBlocks(files, ExportPerFile(files), |files|)
    ensures RequestedOnce(ExportPerFile(files))
    decreases |files|
  {
    if files != [] {
      var last := |files| - 1;
      var front := files[..last];
      assert forall g | 0 <= g < last :: front[g] == files[g];
      PerFileInduction(front);
      var earlier := ExportPerFile(front);
      FrontRequests(files, earlier);
      var scan := ScanFile(files[last], EmptyMap()).value;
      if scan.Tables? {
        assert ExportPerFile(files) == earlier + ReadsOf(last, scan.blocks);
        PerFileStep(files, earlier, ReadsOf(last, scan.blocks), scan.blocks);
      } else {
        assert ExportPerFile(files) == earlier;
      }
    }
  }

  /** What holds of the requests over the files before the last carries over to all the files. */
  lemma FrontRequests(files: seq<seq<string>>, earlier: seq<Read>)
    requires files != [] && ScansCleanly(files)
    requires ScansCleanly(files[..|files| - 1])
    requires RequestsBlocks(files[..|files| - 1], earlier, |files| - 1)
    requires earlier == ExportPerFile(files[..|files| - 1])
    ensures RequestsBlocks(files, earlier, |files| - 1)
    ensures RequestsBlocks(files, earlier, |files|) || ScanFile(files[|files| - 1], EmptyMap()).value.Tables?
    ensures forall j | 0 <= j < |earlier| :: earlier[j].file < |files| - 1
  {
    var front := files[..|files| - 1];
    forall f, m | 0 <= f < |files| - 1 && ScanFile(files[f], EmptyMap()).value.Tables? && m in OwnBlocks(files[f]).values
      ensures Requested(earlier, f, m, OwnBlocks(files[f]).values[m])
    {
      assert front[f] == files[f];
    }
  }

  lemma RequestedAppend(a: seq<Read>, b: seq<Read>, f: nat, m: string, bounds: Bounds)
    requires Requested(a, f, m, bounds) || Requested(b, f, m, bounds)
    ensures Requested(a + b, f, m, bounds)
  {
    if Requested(a, f, m, bounds) {
      var j :| 0 <= j < |a| && a[j] == Read(f, m, bounds);
      assert (a + b)[j] == a[j];
    } else {
      var j :| 0 <= j < |b| && b[j] == Read(f, m, bounds);
      assert (a + b)[|a| + j] == b[j];
    }
  }

  /** The reads of the last file, after those of the files before it, keep both properties. */
  lemma PerFileStep(files: seq<seq<string>>, earlier: seq<Read>, rs: seq<Read>, b: OrderedMap<Bounds>)
    requires files != [] && ScansCleanly(files)
    requires ScanFile(files[|files| - 1], EmptyMap()) == Ok(Tables(b))
    requires b.Valid() && rs == ReadsOf(|files| - 1, b)
    requires forall j | 0 <= j < |earlier| :: earlier[j].file < |files| - 1
    requires RequestsBlocks(files, earlier, |files| - 1)
    requires RequestedOnce(earlier)
    ensures RequestsBlocks(files, earlier + rs, |files|)
    ensures RequestedOnce(earlier + rs)
  {
    var last := |files| - 1;
    forall f, m | 0 <= f < |files| && ScanFile(files[f], EmptyMap()).value.Tables? && m in OwnBlocks(files[f]).values
      ensures Requested(earlier + rs, f, m, OwnBlocks(files[f]).values[m])
    {
      if f == last {
        assert OwnBlocks(files[f]) == b;
        var j :| 0 <= j < |rs| && rs[j].molecule == m && rs[j].bounds == b.values[m];
        assert rs[j] == Read(f, m, b.values[m]);
      }
      RequestedAppend(earlier, rs, f, m, OwnBlocks(files[f]).values[m]);
    }
  }

  lemma IdLine(line: string)
    requires |line| >= 4 && line[0] == 'I' && line[1] == 'D'
    ensures IsIdLine(line) && !IsNameLine(line)
  {
    assert line[..2] == "ID";
    assert line[..4][0] != "Name"[0];
  }

  lemma NameLine(line: string, name: string)
    requires |line| == |name| + 6 && line[..5] == "Name:" && line[5..|line| - 1] == name
    ensures !IsIdLine(line) && IsNameLine(line) && NameOf(line) == name
  {
    assert line[..2][0] == line[..5][0];
    assert line[..4] == line[..5][..4];
  }

  /** An ID line, a Name line and a data line make one block, from line 2 to line 2. */
  lemma OneBlockFile(lines: seq<string>, name: string, blocks: OrderedMap<Bounds>)
    requires |lines| == 3 && name != ""
    requires IsIdLine(lines[0]) && !IsNameLine(lines[0])
    requires !IsIdLine(lines[1]) && IsNameLine(lines[1]) && NameOf(lines[1]) == name
    requires !IsIdLine(lines[2]) && !IsNameLine(lines[2])
    ensures ScanFile(lines, blocks) == Ok(Tables(blocks.Put(name, Bounds(2, 2))))
  {
    var s0 := StartScan(blocks);
    assert lines[..0] == [] && lines[..1][..0] == [];
    assert ScanLines(lines[..1], s0) == Ok(Scan(Some(2), "", blocks));
    assert lines[..2][..1] == lines[..1];
    assert ScanLines(lines[..2], s0) == Ok(Scan(Some(2), name, blocks));
    assert lines[..3] == lines && lines[..3][..2] == lines[..2];
    assert ScanLines(lines, s0) == Ok(Scan(Some(2), name, blocks));
  }

  /** Two files, each with one block under its own name. */
  const FirstFile: seq<string> := ["ID#\n", "Name:Acetate\n", "1\n"]
  const SecondFile: seq<string> := ["ID#\n", "Name:Lactate\n", "1\n"]

  /**
   * With one map for all files, the second file is asked for the first
   * file's block, at the first file's bounds, although it has no such block.
   */
  lemma StaleBlockReadFromLaterFile()
    ensures ExportAsWritten([FirstFile, SecondFile]).Ok?
    ensures Read(1, "Acetate", Bounds(2, 2)) in ExportAsWritten([FirstFile, SecondFile]).value.requests
    ensures ScanFile(SecondFile, EmptyMap()).Ok?
    ensures "Acetate" !in OwnBlocks(SecondFile).values
  {
    var e: OrderedMap<Bounds> := EmptyMap();
    var b1 := e.Put("Acetate", Bounds(2, 2));
    var b2 := b1.Put("Lactate", Bounds(2, 2));
    ExampleFilesScan();
    assert b2.keys == ["Acetate", "Lactate"];
    SecondFileReadsFirstKey(FirstFile, SecondFile, b1, b2);
  }

  /** After two files, the second file's reads start with the first block of the shared map. */
  lemma SecondFileReadsFirstKey(first: seq<string>, second: seq<string>, b1: OrderedMap<Bounds>, b2: OrderedMap<Bounds>)
    requires ScanFile(first, EmptyMap()) == Ok(Tables(b1))
    requires ScanFile(second, b1) == Ok(Tables(b2))
    requires b2.keys != []
    ensures ExportAsWritten([first, second]).Ok?
    ensures Read(1, b2.keys[0], b2.values[b2.keys[0]]) in ExportAsWritten([first, second]).value.requests
  {
    TwoFileExport(first, second, b1, b2);
    var requests := ReadsOf(0, b1) + ReadsOf(1, b2);
    assert requests[|ReadsOf(0, b1)|] == ReadsOf(1, b2)[0];
  }

  lemma ExampleFilesScan()
    ensures ScanFile(FirstFile, EmptyMap()) == Ok(Tables(EmptyMap().Put("Acetate", Bounds(2, 2))))
    ensures ScanFile(SecondFile, EmptyMap().Put("Acetate", Bounds(2, 2)))
      == Ok(Tables(EmptyMap().Put("Acetate", Bounds(2, 2)).Put("Lactate", Bounds(2, 2))))
    ensures ScanFile(SecondFile, EmptyMap()) == Ok(Tables(EmptyMap().Put("Lactate", Bounds(2, 2))))
  {
    IdLine("ID#\n");
    NameLine("Name:Acetate\n", "Acetate");
    NameLine("Name:Lactate\n", "Lactate");
    assert !IsIdLine("1\n") && !IsNameLine("1\n");
    OneBlockFile(FirstFile, "Acetate", EmptyMap());
    OneBlockFile(SecondFile, "Lactate", EmptyMap().Put("Acetate", Bounds(2, 2)));
    OneBlockFile(SecondFile, "Lactate", EmptyMap());
  }

  lemma TwoFileExport(first: seq<string>, second: seq<string>, b1: OrderedMap<Bounds>, b2: OrderedMap<Bounds>)
    requires ScanFile(first, EmptyMap()) == Ok(Tables(b1))
    requires ScanFile(second, b1) == Ok(Tables(b2))
    ensures ExportAsWritten([first, second]) == Ok(Export(b2, ReadsOf(0, b1) + ReadsOf(1, b2), []))
  {
    OneFileExport(first, b1);
    assert [first, second][..1] == [first];
  }

  lemma OneFileExport(first: seq<string>, b1: OrderedMap<Bounds>)
    requires ScanFile(first, EmptyMap()) == Ok(Tables(b1))
    ensures ExportAsWritten([first]) == Ok(Export(b1, ReadsOf(0, b1), []))
  {
    assert [first][..0] == [];
    assert [] + ReadsOf(0, b1) == ReadsOf(0, b1);
  }

  /** With a single file, the code's requests are exactly the per-file requests. */
  lemma SingleFileReadsAgree(lines: seq<string>)
    requires ScanFile(lines, EmptyMap()).Ok?
    ensures ExportAsWritten([lines]).Ok?
    ensures ExportAsWritten([lines]).value.requests == ExportPerFile([lines])
  {
    assert [lines][..0] == [];
  }
}
