/**
 * The shared-file stacker (scripts/stack_shared.py): a wide MOTHUR shared
 * table, one row per (label, Group) with one column per OTU, becomes one
 * (rrs_library_id, taxon_level, taxon_id, tally) record per cell that is
 * present and not zero.
 */
module SharedFile {
  import opened Wrappers
  import opened Text

  /** A cell as read from the table: an integer, other text, or missing. */
  datatype Cell = Count(n: int) | Text(s: string) | Missing

  /**
   * The table as read: distinct column names (the reader renames repeated
   * ones) and rows of exactly one cell per column.
   */
  datatype Table = Table(columns: seq<string>, rows: seq<seq<Cell>>)
  {
    ghost predicate Valid()
    {
      (forall i, j | 0 <= i < j < |columns| :: columns[i] != columns[j]) &&
      (forall r | 0 <= r < |rows| :: |rows[r]| == |columns|)
    }
  }

  datatype Record = Record(library: string, level: string, taxon: string, tally: Cell)

  /** The column the reshaping needs but the table lacks. */
  datatype Failure = MissingColumn(name: string)

  const Group := "Group"
  const Label := "label"
  const NumOtus := "numOtus"

  /** How a cell is written out as text. */
  function Render(c: Cell): string
  {
    match c
    case Count(n) => IntToDecimal(n)
    case Text(s) => s
    case Missing => "nan"
  }

  /** A cell `stack()` keeps and `!= 0` does not filter out. */
  predicate Kept(c: Cell)
  {
    c != Missing && c != Count(0)
  }

  predicate IsTaxon(name: string)
  {
    name != Group && name != Label && name != NumOtus
  }

  /** The records of one row over the taxon columns among the first `n`. */
  function RowRecords(columns: seq<string>, row: seq<Cell>, library: string, level: string, n: nat): seq<Record>
    requires n <= |columns| == |row|
  {
    if n == 0 then []
    else
      RowRecords(columns, row, library, level, n - 1) +
      (if IsTaxon(columns[n - 1]) && Kept(row[n - 1]) then [Record(library, level, columns[n - 1], row[n - 1])] else [])
  }

  /** `taxon_level`: "otu-" followed by the label. */
  function Level(tag: Cell): string
  {
    "otu-" + Render(tag)
  }

  /** The records of the first `m` rows, row after row. */
  function Records(t: Table, g: nat, l: nat, m: nat): seq<Record>
    requires t.Valid() && g < |t.columns| && l < |t.columns| && m <= |t.rows|
  {
    if m == 0 then []
    else
      var row := t.rows[m - 1];
      Records(t, g, l, m - 1) + RowRecords(t.columns, row, Render(row[g]), Level(row[l]), |t.columns|)
  }

  /** The whole script: the three named columns must exist; the rest are taxa. */
  function Stack(t: Table): (r: Result<seq<Record>, Failure>)
    requires t.Valid()
    ensures r.Err? <==> Group !in t.columns || Label !in t.columns || NumOtus !in t.columns
  {
    if Group !in t.columns then Err(MissingColumn(Group))
    else if Label !in t.columns then Err(MissingColumn(Label))
    else if NumOtus !in t.columns then Err(MissingColumn(NumOtus))
    else Ok(Records(t, Position(t.columns, Group), Position(t.columns, Label), |t.rows|))
  }

  // Properties.

  lemma {:induction false} RowRecordsSound(columns: seq<string>, row: seq<Cell>, library: string, level: string, n: nat, x: Record)
    requires n <= |columns| == |row| && x in RowRecords(columns, row, library, level, n)
    ensures x.library == library && x.level == level && Kept(x.tally)
    ensures exists c | 0 <= c < n :: IsTaxon(columns[c]) && x.taxon == columns[c] && x.tally == row[c]
  {
    if x !in RowRecords(columns, row, library, level, n - 1) {
      assert IsTaxon(columns[n - 1]) && x.taxon == columns[n - 1] && x.tally == row[n - 1];
    } else {
      RowRecordsSound(columns, row, library, level, n - 1, x);
    }
  }

  lemma {:induction false} RowRecordsComplete(columns: seq<string>, row: seq<Cell>, library: string, level: string, n: nat, c: nat)
    requires n <= |columns| == |row| && c < n && IsTaxon(columns[c]) && Kept(row[c])
    ensures Record(library, level, columns[c], row[c]) in RowRecords(columns, row, library, level, n)
  {
    if c < n - 1 {
      RowRecordsComplete(columns, row, library, level, n - 1, c);
    }
  }

  /** A record names the row's Group and label and one of its kept taxon cells. */
  predicate FromCell(t: Table, g: nat, l: nat, x: Record, r: nat, c: nat)
    requires t.Valid() && g < |t.columns| && l < |t.columns| && r < |t.rows| && c < |t.columns|
  {
    x == Record(Render(t.rows[r][g]), Level(t.rows[r][l]), t.columns[c], t.rows[r][c])
  }

  lemma {:induction false} RecordsSound(t: Table, g: nat, l: nat, m: nat, x: Record)
    requires t.Valid() && g < |t.columns| && l < |t.columns| && m <= |t.rows|
    requires x in Records(t, g, l, m)
    ensures Kept(x.tally) && IsTaxon(x.taxon)
    ensures exists r, c | 0 <= r < m && 0 <= c < |t.columns| :: IsTaxon(t.columns[c]) && FromCell(t, g, l, x, r, c)
  {
    var row := t.rows[m - 1];
    if x in Records(t, g, l, m - 1) {
      RecordsSound(t, g, l, m - 1, x);
    } else {
      RowRecordsSound(t.columns, row, Render(row[g]), Level(row[l]), |t.columns|, x);
      var c :| 0 <= c < |t.columns| && IsTaxon(t.columns[c]) && x.taxon == t.columns[c] && x.tally == row[c];
      assert FromCell(t, g, l, x, m - 1, c);
    }
  }

  lemma {:induction false} RecordsComplete(t: Table, g: nat, l: nat, m: nat, r: nat, c: nat)
    requires t.Valid() && g < |t.columns| && l < |t.columns| && m <= |t.rows|
    requires r < m && c < |t.columns| && IsTaxon(t.columns[c]) && Kept(t.rows[r][c])
    ensures Record(Render(t.rows[r][g]), Level(t.rows[r][l]), t.columns[c], t.rows[r][c]) in Records(t, g, l, m)
  {
    var x := Record(Render(t.rows[r][g]), Level(t.rows[r][l]), t.columns[c], t.rows[r][c]);
    if r < m - 1 {
      RecordsComplete(t, g, l, m - 1, r, c);
      EarlierRowKept(t, g, l, m, x);
    } else {
      var row := t.rows[m - 1];
      RowRecordsComplete(t.columns, row, Render(row[g]), Level(row[l]), |t.columns|, c);
      LastRowKept(t, g, l, m, x);
    }
  }

  /** A record of the first m − 1 rows stays among those of the first m. */
  lemma EarlierRowKept(t: Table, g: nat, l: nat, m: nat, x: Record)
    requires t.Valid() && g < |t.columns| && l < |t.columns| && 0 < m <= |t.rows|
    requires x in Records(t, g, l, m - 1)
    ensures x in Records(t, g, l, m)
  {
  }

  /** A record of row m − 1 is among those of the first m rows. */
  lemma LastRowKept(t: Table, g: nat, l: nat, m: nat, x: Record)
    requires t.Valid() && g < |t.columns| && l < |t.columns| && 0 < m <= |t.rows|
    requires x in RowRecords(t.columns, t.rows[m - 1], Render(t.rows[m - 1][g]), Level(t.rows[m - 1][l]), |t.columns|)
    ensures x in Records(t, g, l, m)
  {
  }

  /**
   * The stacked records are exactly the kept cells of the taxon columns:
   * each carries its row's Group as library and "otu-" + label as level,
   * and Group, label and numOtus never appear as taxa.
   */
  lemma StackExact(t: Table, x: Record)
    requires t.Valid() && Stack(t).Ok?
    ensures x in Stack(t).value <==>
      exists r, c | 0 <= r < |t.rows| && 0 <= c < |t.columns| ::
        IsTaxon(t.columns[c]) && Kept(t.rows[r][c]) &&
        x == Record(Render(t.rows[r][Position(t.columns, Group)]), "otu-" + Render(t.rows[r][Position(t.columns, Label)]), t.columns[c], t.rows[r][c])
  {
    var g := Position(t.columns, Group);
    var l := Position(t.columns, Label);
    if x in Stack(t).value {
      RecordsSound(t, g, l, |t.rows|, x);
      var r, c :| 0 <= r < |t.rows| && 0 <= c < |t.columns| && IsTaxon(t.columns[c]) && FromCell(t, g, l, x, r, c);
      assert Kept(t.rows[r][c]);
    }
    if exists r, c | 0 <= r < |t.rows| && 0 <= c < |t.columns| ::
        IsTaxon(t.columns[c]) && Kept(t.rows[r][c]) &&
        x == Record(Render(t.rows[r][g]), "otu-" + Render(t.rows[r][l]), t.columns[c], t.rows[r][c]) {
      var r, c :| 0 <= r < |t.rows| && 0 <= c < |t.columns| &&
        IsTaxon(t.columns[c]) && Kept(t.rows[r][c]) &&
        x == Record(Render(t.rows[r][g]), "otu-" + Render(t.rows[r][l]), t.columns[c], t.rows[r][c]);
      RecordsComplete(t, g, l, |t.rows|, r, c);
    }
  }

  /** The number of kept taxon cells in the first `n` columns of a row. */
  function KeptCount(columns: seq<string>, row: seq<Cell>, n: nat): nat
    requires n <= |columns| == |row|
  {
    if n == 0 then 0 else KeptCount(columns, row, n - 1) + (if IsTaxon(columns[n - 1]) && Kept(row[n - 1]) then 1 else 0)
  }

  /** Each row contributes one record per kept taxon cell, in column order. */
  lemma {:induction false} RowRecordsCount(columns: seq<string>, row: seq<Cell>, library: string, level: string, n: nat)
    requires n <= |columns| == |row|
    ensures |RowRecords(columns, row, library, level, n)| == KeptCount(columns, row, n)
  {
    if n > 0 {
      RowRecordsCount(columns, row, library, level, n - 1);
    }
  }

  /** A table with only the three bookkeeping columns stacks to nothing. */
  lemma {:induction false} NoTaxonColumnsNoRecords(t: Table, g: nat, l: nat, m: nat)
    requires t.Valid() && g < |t.columns| && l < |t.columns| && m <= |t.rows|
    requires forall c | 0 <= c < |t.columns| :: !IsTaxon(t.columns[c])
    ensures Records(t, g, l, m) == []
  {
    if m > 0 {
      NoTaxonColumnsNoRecords(t, g, l, m - 1);
      var row := t.rows[m - 1];
      RowRecordsCount(t.columns, row, Render(row[g]), Level(row[l]), |t.columns|);
      NoTaxonKeptCount(t.columns, row, |t.columns|);
    }
  }

  lemma {:induction false} NoTaxonKeptCount(columns: seq<string>, row: seq<Cell>, n: nat)
    requires n <= |columns| == |row|
    requires forall c | 0 <= c < |columns| :: !IsTaxon(columns[c])
    ensures KeptCount(columns, row, n) == 0
  {
    if n > 0 {
      NoTaxonKeptCount(columns, row, n - 1);
    }
  }
}
