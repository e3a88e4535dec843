/**
 * The MOTHUR taxonomy parser (scripts/parse_otu_taxonomy.py): each OTU's
 * taxonomy string `name(conf);name(conf);...;` becomes one row per named
 * level, (taxon_id, taxon_level, taxon_id_b, taxon_level_b, confidence),
 * with exact duplicate rows removed.
 */
module OtuTaxonomy {
  import opened Wrappers
  import opened Text

  /** One row of the input table; its `Size` column is dropped and not modelled. */
  datatype Otu = Otu(id: string, taxonomy: string)

  datatype TaxRow = TaxRow(taxon: string, level: string, taxonB: string, levelB: string, confidence: Option<string>)

  datatype Failure =
    | NoRows                                  // the first row's string does not exist
    | LevelCountMismatch(names: nat, pieces: nat) // level names and split columns differ in number
    | NoConfidence                            // no piece has a `(`, so there is no confidence column

  const Levels: seq<string> := ["domain", "phylum", "class", "order", "family", "genus", "species", "strain"]

  /** The number of levels, taken from the first row: its `;`-split length minus one. */
  function LevelCount(first: string): (n: nat)
    ensures n == Count(first, ';')
  {
    |Split(first, ';')| - 1
  }

  /** `s.strip(';').split(';')`. */
  function Pieces(taxonomy: string): (ps: seq<string>)
    ensures |ps| >= 1
  {
    Split(StripChars(taxonomy, {';'}), ';')
  }

  /** A piece the `^\s*$` replacement turns into a missing value. */
  predicate Blank(piece: string)
  {
    forall k | 0 <= k < |piece| :: IsSpace(piece[k])
  }

  /**
   * The split pieces of every row: the table `apply(pd.Series)` spreads into
   * columns. No piece holds a `;`, and each row's pieces joined by `;` give
   * back its taxonomy string stripped of `;`.
   */
  function PieceTable(otus: seq<Otu>): (t: seq<seq<string>>)
    ensures |t| == |otus|
    ensures forall i | 0 <= i < |otus| :: t[i] == Pieces(otus[i].taxonomy)
    ensures forall i | 0 <= i < |otus| :: Join(t[i], ';') == StripChars(otus[i].taxonomy, {';'})
    ensures forall i, j | 0 <= i < |otus| && 0 <= j < |t[i]| :: ';' !in t[i][j]
  {
    seq(|otus|, i requires 0 <= i < |otus| => Pieces(otus[i].taxonomy))
  }

  /** The number of columns of the spread table: the longest piece list. */
  function Width(t: seq<seq<string>>): (w: nat)
    ensures forall i | 0 <= i < |t| :: |t[i]| <= w
    ensures t != [] ==> exists i | 0 <= i < |t| :: |t[i]| == w
  {
    if t == [] then 0
    else
      var w := Width(t[..|t| - 1]);
      var p := |t[|t| - 1]|;
      assert forall i | 0 <= i < |t| - 1 :: t[..|t| - 1][i] == t[i];
      if p > w then p else w
  }

  /** One stacked piece: leading and trailing `)` stripped, then split at `(`. */
  function PieceRow(taxon: string, level: string, levelB: string, piece: string): (r: TaxRow)
    ensures r.taxon == taxon && r.level == level && r.levelB == levelB
    ensures '(' !in r.taxonB
    ensures r.confidence.Some? <==> '(' in StripChars(piece, {')'})
  {
    var parts := Split(StripChars(piece, {')'}), '(');
    TaxRow(taxon, level, parts[0], levelB, if |parts| >= 2 then Some(parts[1]) else None)
  }

  /** A stacked cell: the OTU, the level name of its column, and the piece. */
  datatype Cell = Cell(taxon: string, levelB: string, piece: string)

  /** The cells of one OTU's first `n` pieces; blank ones are missing and dropped. */
  function OtuCells(id: string, ps: seq<string>, n: nat): seq<Cell>
    requires n <= |ps| <= |Levels|
  {
    if n == 0 then []
    else OtuCells(id, ps, n - 1) + (if Blank(ps[n - 1]) then [] else [Cell(id, Levels[n - 1], ps[n - 1])])
  }

  /** Every row has no more pieces than there are level names. */
  predicate Fits(t: seq<seq<string>>)
  {
    forall i | 0 <= i < |t| :: |t[i]| <= |Levels|
  }

  /** `stack()`: the cells of the first `m` OTUs, row-major. */
  function Stacked(ids: seq<string>, t: seq<seq<string>>, m: nat): seq<Cell>
    requires m <= |t| == |ids| && Fits(t)
  {
    if m == 0 then []
    else Stacked(ids, t, m - 1) + OtuCells(ids[m - 1], t[m - 1], |t[m - 1]|)
  }

  /** The `apply` that splits every stacked piece into a row. */
  function Expand(cells: seq<Cell>, level: string): (rows: seq<TaxRow>)
    ensures |rows| == |cells|
    ensures forall k | 0 <= k < |cells| :: rows[k] == PieceRow(cells[k].taxon, level, cells[k].levelB, cells[k].piece)
    ensures forall k | 0 <= k < |cells| ::
      && rows[k].taxon == cells[k].taxon && rows[k].level == level && rows[k].levelB == cells[k].levelB
      && '(' !in rows[k].taxonB
      && (rows[k].confidence.Some? <==> '(' in StripChars(cells[k].piece, {')'}))
  {
    seq(|cells|, k requires 0 <= k < |cells| => PieceRow(cells[k].taxon, level, cells[k].levelB, cells[k].piece))
  }

  /** `drop_duplicates()`: the first occurrence of each row, in order. */
  function Dedup(rows: seq<TaxRow>): (r: seq<TaxRow>)
    ensures forall x :: x in r <==> x in rows
    ensures forall i, j | 0 <= i < j < |r| :: r[i] != r[j]
  {
    if rows == [] then []
    else
      var d := Dedup(rows[..|rows| - 1]);
      assert rows == rows[..|rows| - 1] + [rows[|rows| - 1]];
      if rows[|rows| - 1] in d then d else d + [rows[|rows| - 1]]
  }

  /** No row before position k equals rows[k]. */
  predicate IsFirst(rows: seq<TaxRow>, k: nat)
    requires k < |rows|
  {
    forall j | 0 <= j < k :: rows[j] != rows[k]
  }

  /** The positions of first occurrences, in increasing order. */
  function FirstPositions(rows: seq<TaxRow>): (p: seq<nat>)
    ensures forall i | 0 <= i < |p| :: p[i] < |rows| && IsFirst(rows, p[i])
    ensures forall k | 0 <= k < |rows| && IsFirst(rows, k) :: k in p
    ensures forall i, j | 0 <= i < j < |p| :: p[i] < p[j]
  {
    if rows == [] then []
    else
      var n := |rows| - 1;
      var q := FirstPositions(rows[..n]);
      PrefixFirsts(rows, n);
      if IsFirst(rows, n) then q + [n] else q
  }

  lemma PrefixFirsts(rows: seq<TaxRow>, n: nat)
    requires n <= |rows|
    ensures forall k | 0 <= k < n :: IsFirst(rows[..n], k) == IsFirst(rows, k)
  {
    assert forall j | 0 <= j < n :: rows[..n][j] == rows[j];
  }

  /** The rows at the given positions, in that order. */
  function Pick(rows: seq<TaxRow>, p: seq<nat>): seq<TaxRow>
    requires forall i | 0 <= i < |p| :: p[i] < |rows|
  {
    seq(|p|, i requires 0 <= i < |p| => rows[p[i]])
  }

  /** `drop_duplicates()` keeps the first occurrence of every row, in the input order. */
  lemma {:induction false} DedupFirstOccurrences(rows: seq<TaxRow>)
    ensures Dedup(rows) == Pick(rows, FirstPositions(rows))
  {
    if rows != [] {
      var n := |rows| - 1;
      var q := FirstPositions(rows[..n]);
      DedupFirstOccurrences(rows[..n]);
      PickPrefix(rows, n, q);
      LastIsFirst(rows);
      if IsFirst(rows, n) {
        PickSnoc(rows, q, n);
      }
    }
  }

  lemma PickPrefix(rows: seq<TaxRow>, n: nat, q: seq<nat>)
    requires n <= |rows| && forall i | 0 <= i < |q| :: q[i] < n
    ensures Pick(rows[..n], q) == Pick(rows, q)
  {
  }

  /** The last row is a first occurrence exactly when the rows before it do not hold it. */
  lemma LastIsFirst(rows: seq<TaxRow>)
    requires rows != []
    ensures rows[|rows| - 1] in rows[..|rows| - 1] <==> !IsFirst(rows, |rows| - 1)
  {
    var n := |rows| - 1;
    assert forall j | 0 <= j < n :: rows[..n][j] == rows[j];
  }

  lemma PickSnoc(rows: seq<TaxRow>, q: seq<nat>, n: nat)
    requires n < |rows| && forall i | 0 <= i < |q| :: q[i] < |rows|
    ensures Pick(rows, q + [n]) == Pick(rows, q) + [rows[n]]
  {
  }

  predicate HasConfidence(rows: seq<TaxRow>)
  {
    exists i | 0 <= i < |rows| :: rows[i].confidence.Some?
  }

  function Ids(otus: seq<Otu>): (ids: seq<string>)
    ensures |ids| == |otus| && forall i | 0 <= i < |otus| :: ids[i] == otus[i].id
  {
    seq(|otus|, i requires 0 <= i < |otus| => otus[i].id)
  }

  /** The number of level names the first row selects, at most all eight. */
  function Names(otus: seq<Otu>): nat
    requires otus != []
  {
    Min(LevelCount(otus[0].taxonomy), |Levels|)
  }

  /** The whole script; `level` is its first command-line argument. */
  function Parse(otus: seq<Otu>, level: string): (r: Result<seq<TaxRow>, Failure>)
    ensures otus == [] <==> r == Err(NoRows)
    ensures otus != [] && Width(PieceTable(otus)) != Names(otus) ==>
      r == Err(LevelCountMismatch(Names(otus), Width(PieceTable(otus))))
  {
    if otus == [] then Err(NoRows)
    else
      var t := PieceTable(otus);
      var w := Width(t);
      if w != Names(otus) then Err(LevelCountMismatch(Names(otus), w))
      else
        Finish(Stacked(Ids(otus), t, |otus|), level)
  }

  /** Splitting the stacked pieces, selecting the columns and dropping duplicate rows. */
  function Finish(cells: seq<Cell>, level: string): Result<seq<TaxRow>, Failure>
  {
    var s := Expand(cells, level);
    if !HasConfidence(s) then Err(NoConfidence) else Ok(Dedup(s))
  }

  // Properties.

  lemma {:induction false} OtuCellsSound(id: string, ps: seq<string>, n: nat, c: Cell)
    requires n <= |ps| <= |Levels| && c in OtuCells(id, ps, n)
    ensures exists j | 0 <= j < n :: !Blank(ps[j]) && c == Cell(id, Levels[j], ps[j])
  {
    if c !in OtuCells(id, ps, n - 1) {
      assert c == Cell(id, Levels[n - 1], ps[n - 1]);
    } else {
      OtuCellsSound(id, ps, n - 1, c);
    }
  }

  lemma {:induction false} OtuCellsComplete(id: string, ps: seq<string>, n: nat, j: nat)
    requires n <= |ps| <= |Levels| && j < n && !Blank(ps[j])
    ensures Cell(id, Levels[j], ps[j]) in OtuCells(id, ps, n)
  {
    if j < n - 1 {
      OtuCellsComplete(id, ps, n - 1, j);
    }
  }

  /** The cell of the non-blank piece `j` of OTU `i`, named by level `j`. */
  predicate Produces(ids: seq<string>, t: seq<seq<string>>, c: Cell, i: nat, j: nat)
    requires i < |t| == |ids|
  {
    j < |t[i]| && j < |Levels| && !Blank(t[i][j]) && c == Cell(ids[i], Levels[j], t[i][j])
  }

  /** Some OTU among the first `m` produces `c`. */
  predicate ProducedBy(ids: seq<string>, t: seq<seq<string>>, c: Cell, m: nat)
    requires m <= |t| == |ids|
  {
    exists i, j | 0 <= i < m && 0 <= j < |Levels| :: Produces(ids, t, c, i, j)
  }

  lemma {:induction false} StackedSound(ids: seq<string>, t: seq<seq<string>>, m: nat, c: Cell)
    requires m <= |t| == |ids| && Fits(t)
    requires c in Stacked(ids, t, m)
    ensures ProducedBy(ids, t, c, m)
  {
    if c in Stacked(ids, t, m - 1) {
      StackedSound(ids, t, m - 1, c);
      var i, j :| 0 <= i < m - 1 && 0 <= j < |Levels| && Produces(ids, t, c, i, j);
      assert Produces(ids, t, c, i, j);
    } else {
      OtuCellsSound(ids[m - 1], t[m - 1], |t[m - 1]|, c);
      var j :| 0 <= j < |t[m - 1]| && !Blank(t[m - 1][j]) && c == Cell(ids[m - 1], Levels[j], t[m - 1][j]);
      assert Produces(ids, t, c, m - 1, j);
    }
  }

  lemma {:induction false} StackedComplete(ids: seq<string>, t: seq<seq<string>>, m: nat, i: nat, j: nat)
    requires i < m <= |t| == |ids| && Fits(t)
    requires j < |t[i]| && !Blank(t[i][j])
    ensures Cell(ids[i], Levels[j], t[i][j]) in Stacked(ids, t, m)
  {
    var c := Cell(ids[i], Levels[j], t[i][j]);
    var before := Stacked(ids, t, m - 1);
    var last := OtuCells(ids[m - 1], t[m - 1], |t[m - 1]|);
    assert Stacked(ids, t, m) == before + last;
    if i < m - 1 {
      StackedComplete(ids, t, m - 1, i, j);
      InConcat(c, before, last);
    } else {
      OtuCellsComplete(ids[i], t[i], |t[i]|, j);
      InConcat(c, before, last);
    }
  }

  lemma InConcat(c: Cell, a: seq<Cell>, b: seq<Cell>)
    ensures c in a + b <==> c in a || c in b
  {
  }

  /** `stack()` keeps exactly the non-blank pieces, each under its position's level name. */
  lemma StackedExact(ids: seq<string>, t: seq<seq<string>>, c: Cell)
    requires |t| == |ids| && Fits(t)
    ensures c in Stacked(ids, t, |t|) <==> ProducedBy(ids, t, c, |t|)
  {
    if c in Stacked(ids, t, |t|) {
      StackedSound(ids, t, |t|, c);
    }
    if ProducedBy(ids, t, c, |t|) {
      var i, j :| 0 <= i < |t| && 0 <= j < |Levels| && Produces(ids, t, c, i, j);
      StackedComplete(ids, t, |t|, i, j);
    }
  }

  /** When the widths agree, no row has more pieces than there are level names. */
  lemma WidthFits(otus: seq<Otu>)
    requires otus != [] && Width(PieceTable(otus)) == Names(otus)
    ensures Fits(PieceTable(otus))
  {
    var t := PieceTable(otus);
    assert Names(otus) <= |Levels|;
    assert forall i | 0 <= i < |t| :: |t[i]| <= Width(t);
  }

  /** After the width check, the script stacks the piece table and finishes. */
  lemma ParseIsFinish(otus: seq<Otu>, level: string)
    requires otus != [] && Width(PieceTable(otus)) == Names(otus)
    ensures Fits(PieceTable(otus))
    ensures Parse(otus, level) == Finish(Stacked(Ids(otus), PieceTable(otus), |otus|), level)
  {
    WidthFits(otus);
  }

  /** The finished rows are exactly the split cells, each once. */
  lemma FinishExact(cells: seq<Cell>, level: string, x: TaxRow)
    requires Finish(cells, level).Ok?
    ensures x in Finish(cells, level).value <==> exists c | c in cells :: x == PieceRow(c.taxon, level, c.levelB, c.piece)
    ensures forall a, b | 0 <= a < b < |Finish(cells, level).value| :: Finish(cells, level).value[a] != Finish(cells, level).value[b]
  {
    if x in Finish(cells, level).value {
      var k :| 0 <= k < |cells| && Expand(cells, level)[k] == x;
      assert cells[k] in cells;
    }
    if exists c | c in cells :: x == PieceRow(c.taxon, level, c.levelB, c.piece) {
      var c :| c in cells && x == PieceRow(c.taxon, level, c.levelB, c.piece);
      var k :| 0 <= k < |cells| && cells[k] == c;
      assert Expand(cells, level)[k] == x;
    }
  }

  /** Without a `(` in any stacked piece there is no confidence column. */
  lemma FinishWithoutParentheses(cells: seq<Cell>, level: string)
    requires forall k | 0 <= k < |cells| :: '(' !in cells[k].piece
    ensures Finish(cells, level) == Err(NoConfidence)
  {
    var s := Expand(cells, level);
    if HasConfidence(s) {
      var k :| 0 <= k < |s| && s[k].confidence.Some?;
      StripKeepsOpen(cells[k].piece);
      assert false;
    }
  }

  /** Stripping `)` never introduces a `(`. */
  lemma StripKeepsOpen(p: string)
    requires '(' !in p
    ensures '(' !in StripChars(p, {')'})
  {
  }

  /**
   * The output rows are exactly the split non-blank pieces, each named by
   * its position's level, and no row appears twice.
   */
  lemma ParseExact(otus: seq<Otu>, level: string, x: TaxRow)
    requires Parse(otus, level).Ok?
    ensures x in Parse(otus, level).value <==>
      exists c | c in Stacked(Ids(otus), PieceTable(otus), |otus|) :: x == PieceRow(c.taxon, level, c.levelB, c.piece)
    ensures forall c | c in Stacked(Ids(otus), PieceTable(otus), |otus|) ::
      ProducedBy(Ids(otus), PieceTable(otus), c, |otus|)
    ensures forall a, b | 0 <= a < b < |Parse(otus, level).value| :: Parse(otus, level).value[a] != Parse(otus, level).value[b]
  {
    var ids := Ids(otus);
    var t := PieceTable(otus);
    ParseIsFinish(otus, level);
    var cells := Stacked(ids, t, |otus|);
    forall c | c in cells
      ensures ProducedBy(ids, t, c, |otus|)
    {
      StackedExact(ids, t, c);
    }
    FinishExact(cells, level, x);
  }

  /** Every output row carries the command-line level, a taxon name free of `(`, and one of the level names. */
  lemma ParseRowsShape(otus: seq<Otu>, level: string, x: TaxRow)
    requires Parse(otus, level).Ok? && x in Parse(otus, level).value
    ensures x.level == level && '(' !in x.taxonB && x.levelB in Levels
  {
    ParseExact(otus, level, x);
    var c :| c in Stacked(Ids(otus), PieceTable(otus), |otus|) && x == PieceRow(c.taxon, level, c.levelB, c.piece);
    var i, j :| 0 <= i < |otus| && 0 <= j < |Levels| && Produces(Ids(otus), PieceTable(otus), c, i, j);
  }

  /** The script fails on a table where no piece holds a confidence in parentheses. */
  lemma NoParenthesesFails(otus: seq<Otu>, level: string)
    requires otus != [] && Width(PieceTable(otus)) == Names(otus)
    requires forall i, j | 0 <= i < |otus| && 0 <= j < |Pieces(otus[i].taxonomy)| :: '(' !in Pieces(otus[i].taxonomy)[j]
    ensures Parse(otus, level) == Err(NoConfidence)
  {
    var ids := Ids(otus);
    var t := PieceTable(otus);
    ParseIsFinish(otus, level);
    var cells := Stacked(ids, t, |otus|);
    forall k | 0 <= k < |cells|
      ensures '(' !in cells[k].piece
    {
      StackedExact(ids, t, cells[k]);
      var i, j :| 0 <= i < |otus| && 0 <= j < |Levels| && Produces(ids, t, cells[k], i, j);
    }
    FinishWithoutParentheses(cells, level);
  }

  // The well-formed strings the script is written for.

  /** A well-formed taxon name or confidence: no separator of any kind. */
  predicate Plain(s: string)
  {
    s != [] && ';' !in s && '(' !in s && ')' !in s && !IsSpace(s[0])
  }

  /** `name(conf)`. */
  function Entry(name: string, conf: string): string
  {
    name + "(" + conf + ")"
  }

  /** An entry splits back into its name and confidence. */
  lemma EntryRoundTrip(taxon: string, level: string, levelB: string, name: string, conf: string)
    requires Plain(name) && Plain(conf)
    ensures PieceRow(taxon, level, levelB, Entry(name, conf)) == TaxRow(taxon, level, name, levelB, Some(conf))
  {
    EntryStrips(name, conf);
    var parts := Split(name + "(" + conf, '(');
    assert parts == [name, conf] by {
      assert name + "(" + conf == name + ['('] + conf;
      SplitPair(name, conf, '(');
    }
  }

  /** Stripping `)` from an entry leaves its name, `(` and its confidence. */
  lemma EntryStrips(name: string, conf: string)
    requires Plain(name) && Plain(conf)
    ensures StripChars(Entry(name, conf), {')'}) == name + "(" + conf
  {
    var body := name + "(" + conf;
    assert Entry(name, conf) == [] + body + ")";
    assert body[0] == name[0] && body[|body| - 1] == conf[|conf| - 1];
    StripCharsPadded([], body, ")", {')'});
  }

  /** MOTHUR's layout: entries joined by `;` with a trailing `;`. */
  function TaxonomyString(entries: seq<string>): string
  {
    Join(entries, ';') + ";"
  }

  /**
   * A MOTHUR taxonomy string of `k` entries has `k` levels, and splits back
   * into exactly its entries.
   */
  lemma TaxonomyRoundTrip(entries: seq<string>)
    requires |entries| >= 1
    requires forall j | 0 <= j < |entries| :: entries[j] != [] && ';' !in entries[j]
    ensures LevelCount(TaxonomyString(entries)) == |entries|
    ensures Pieces(TaxonomyString(entries)) == entries
  {
    TaxonomyLevels(entries);
    TaxonomyPieces(entries);
  }

  lemma TaxonomyLevels(entries: seq<string>)
    requires |entries| >= 1
    requires forall j | 0 <= j < |entries| :: ';' !in entries[j]
    ensures Count(TaxonomyString(entries), ';') == |entries|
  {
    var joined := Join(entries, ';');
    SplitJoin(entries, ';');
    assert Count(joined, ';') == |entries| - 1;
    CountConcat(joined, ";", ';');
    assert Count(";", ';') == 1;
  }

  lemma TaxonomyPieces(entries: seq<string>)
    requires |entries| >= 1
    requires forall j | 0 <= j < |entries| :: entries[j] != [] && ';' !in entries[j]
    ensures Pieces(TaxonomyString(entries)) == entries
  {
    var joined := Join(entries, ';');
    SplitJoin(entries, ';');
    JoinEnds(entries, ';');
    assert TaxonomyString(entries) == [] + joined + ";";
    StripCharsPadded([], joined, ";", {';'});
  }
}
