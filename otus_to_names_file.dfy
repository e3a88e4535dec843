/**
 * The OTU-list to names-file converter (scripts/otus_to_names_file.py):
 * it scans a MOTHUR list file for the header line and for the row of one
 * clustering wanted, then prints one `otu_name<TAB>members` line per OTU
 * of that row.
 */
module OtuNames {
  import opened Wrappers
  import opened Text

  /** Why the script stops without printing. */
  datatype Failure =
    | LabelNotFound(wanted: string)  // the AssertionError of the `for ... else`
    | NoHeaderBefore                // the row came before any header: `otu_names` is unbound

  /** What the scan leaves behind when it stops at the requested row. */
  datatype Found = Found(names: Option<seq<string>>, groups: seq<string>)

  /** The tab fields of a stripped line from the third on. */
  function Fields(line: string): (fs: seq<string>)
    ensures forall k | 0 <= k < |fs| :: '\t' !in fs[k]
  {
    var f := Split(Strip(line), '\t');
    if |f| >= 2 then f[2..] else []
  }

  /** The header line of a list file. */
  predicate IsHeader(line: string)
  {
    StartsWith(line, "label")
  }

  /** A line the scan takes as the requested row: not a header, and prefixed by the wanted. */
  predicate IsRow(line: string, wanted: string)
  {
    !IsHeader(line) && StartsWith(line, wanted)
  }

  /** The `for` loop from line `i` on, with the header names seen so far. */
  function Scan(lines: seq<string>, wanted: string, i: nat, names: Option<seq<string>>): Result<Found, Failure>
    requires i <= |lines|
    decreases |lines| - i
  {
    if i == |lines| then Err(LabelNotFound(wanted))
    else if IsHeader(lines[i]) then Scan(lines, wanted, i + 1, Some(Fields(lines[i])))
    else if StartsWith(lines[i], wanted) then Ok(Found(names, Fields(lines[i])))
    else Scan(lines, wanted, i + 1, names)
  }

  /** One output line. */
  function Line(name: string, group: string): string
  {
    name + "\t" + Strip(group)
  }

  /** The lines for the first `n` (name, group) pairs. */
  function Zip(names: seq<string>, groups: seq<string>, n: nat): seq<string>
    requires n <= |names| && n <= |groups|
  {
    if n == 0 then [] else Zip(names, groups, n - 1) + [Line(names[n - 1], groups[n - 1])]
  }

  /** The whole script: the printed lines, or why it stopped. */
  function Names(lines: seq<string>, wanted: string): Result<seq<string>, Failure>
  {
    match Scan(lines, wanted, 0, None)
    case Err(e) => Err(e)
    case Ok(Found(None, _)) => Err(NoHeaderBefore)
    case Ok(Found(Some(ns), gs)) => Ok(Zip(ns, gs, Min(|ns|, |gs|)))
  }

  /** `main` (otus_to_names_file.py:5-19): the scan with its `break`, then the output. */
  method OtusToNames(lines: seq<string>, wanted: string) returns (out: Result<seq<string>, Failure>)
    ensures out == Names(lines, wanted)
  {
    var names: Option<seq<string>> := None;
    var groups: Option<seq<string>> := None;
    var j := 0;
    while j < |lines|
      invariant 0 <= j <= |lines|
      invariant groups.None?
      invariant Scan(lines, wanted, 0, None) == Scan(lines, wanted, j, names)
    {
      var line := lines[j];
      if StartsWith(line, "label") {
        names := Some(Fields(line));
      } else if StartsWith(line, wanted) {
        groups := Some(Fields(line));
        break;
      }
      j := j + 1;
    }
    if groups.None? {
      return Err(LabelNotFound(wanted));
    }
    if names.None? {
      return Err(NoHeaderBefore);
    }
    var printed := PrintPairs(names.value, groups.value);
    return Ok(printed);
  }

  /** The output loop (otus_to_names_file.py:18-19): one line per position of the shorter list. */
  method PrintPairs(ns: seq<string>, gs: seq<string>) returns (printed: seq<string>)
    ensures printed == Zip(ns, gs, Min(|ns|, |gs|))
  {
    printed := [];
    var i := 0;
    while i < |ns| && i < |gs|
      invariant 0 <= i <= Min(|ns|, |gs|)
      invariant printed == Zip(ns, gs, i)
    {
      printed := printed + [Line(ns[i], gs[i])];
      i := i + 1;
    }
  }

  // Properties.

  /** The header names that are current after `ls`: those of its last header line. */
  function LastHeader(ls: seq<string>): Option<seq<string>>
  {
    if ls == [] then None
    else if IsHeader(ls[|ls| - 1]) then Some(Fields(ls[|ls| - 1]))
    else LastHeader(ls[..|ls| - 1])
  }

  /**
   * Scanning from `i` with the names of the headers before `i` stops at
   * the first row `j`, with the groups of line `j` and the names of the
   * last header before it.
   */
  lemma {:induction false} ScanStopsAt(lines: seq<string>, wanted: string, i: nat, names: Option<seq<string>>, j: nat)
    requires i <= j < |lines| && IsRow(lines[j], wanted)
    requires forall k | i <= k < j :: !IsRow(lines[k], wanted)
    requires names == LastHeader(lines[..i])
    ensures Scan(lines, wanted, i, names) == Ok(Found(LastHeader(lines[..j]), Fields(lines[j])))
    decreases j - i
  {
    if i < j {
      assert lines[..i + 1][..i] == lines[..i];
      if IsHeader(lines[i]) {
        ScanStopsAt(lines, wanted, i + 1, Some(Fields(lines[i])), j);
      } else {
        ScanStopsAt(lines, wanted, i + 1, names, j);
      }
    }
  }

  /** With no row from `i` on, the scan runs off the end. */
  lemma {:induction false} ScanMisses(lines: seq<string>, wanted: string, i: nat, names: Option<seq<string>>)
    requires i <= |lines|
    requires forall k | i <= k < |lines| :: !IsRow(lines[k], wanted)
    ensures Scan(lines, wanted, i, names) == Err(LabelNotFound(wanted))
    decreases |lines| - i
  {
    if i < |lines| {
      if IsHeader(lines[i]) {
        ScanMisses(lines, wanted, i + 1, Some(Fields(lines[i])));
      } else {
        ScanMisses(lines, wanted, i + 1, names);
      }
    }
  }

  /** Some row exists exactly when a first one does. */
  lemma {:induction false} FirstRowExists(lines: seq<string>, wanted: string, j: nat) returns (m: nat)
    requires j < |lines| && IsRow(lines[j], wanted)
    ensures m <= j && IsRow(lines[m], wanted)
    ensures forall k | 0 <= k < m :: !IsRow(lines[k], wanted)
    decreases j
  {
    if k :| 0 <= k < j && IsRow(lines[k], wanted) {
      m := FirstRowExists(lines, wanted, k);
    } else {
      m := j;
    }
  }

  /**
   * The requested wanted is not found exactly when no line is a row for it,
   * i.e. no non-header line starts with it.
   */
  lemma NotFoundExactly(lines: seq<string>, wanted: string)
    ensures Scan(lines, wanted, 0, None) == Err(LabelNotFound(wanted)) <==>
      forall k | 0 <= k < |lines| :: !IsRow(lines[k], wanted)
  {
    if forall k | 0 <= k < |lines| :: !IsRow(lines[k], wanted) {
      ScanMisses(lines, wanted, 0, None);
    } else {
      var j :| 0 <= j < |lines| && IsRow(lines[j], wanted);
      var m := FirstRowExists(lines, wanted, j);
      assert lines[..0] == [];
      ScanStopsAt(lines, wanted, 0, None, m);
    }
  }

  /**
   * When the first row is line `j`, its groups are used, paired with the
   * names of the last header before it; with no header before it the
   * script fails, whatever headers come later.
   */
  lemma FirstRowUsed(lines: seq<string>, wanted: string, j: nat)
    requires j < |lines| && IsRow(lines[j], wanted)
    requires forall k | 0 <= k < j :: !IsRow(lines[k], wanted)
    ensures LastHeader(lines[..j]).None? ==> Names(lines, wanted) == Err(NoHeaderBefore)
    ensures LastHeader(lines[..j]).Some? ==>
      var ns := LastHeader(lines[..j]).value;
      var gs := Fields(lines[j]);
      Names(lines, wanted) == Ok(Zip(ns, gs, Min(|ns|, |gs|)))
  {
    assert lines[..0] == [];
    ScanStopsAt(lines, wanted, 0, None, j);
  }

  /** A label that itself starts with "label" is never found: every line it prefixes is a header. */
  lemma HeaderLabelNeverFound(lines: seq<string>, wanted: string)
    requires StartsWith(wanted, "label")
    ensures Names(lines, wanted) == Err(LabelNotFound(wanted))
  {
    forall k | 0 <= k < |lines|
      ensures !IsRow(lines[k], wanted)
    {
      if StartsWith(lines[k], wanted) {
        StartsWithPrefix(lines[k], wanted, "label");
      }
    }
    NotFoundExactly(lines, wanted);
  }

  /** A line built from tab-free fields, with no surrounding whitespace, gives back its fields from the third on. */
  lemma FieldsOfJoined(parts: seq<string>)
    requires |parts| >= 2 && forall k | 0 <= k < |parts| :: '\t' !in parts[k]
    requires Strip(Join(parts, '\t')) == Join(parts, '\t')
    ensures Fields(Join(parts, '\t')) == parts[2..]
  {
    SplitJoin(parts, '\t');
  }

  /**
   * Matching is by prefix: in a file of one header and one data row, the
   * row is used whenever its first field merely starts with the requested
   * label, and its groups pair with the header's names.
   */
  lemma PrefixRowUsed(header: seq<string>, row: seq<string>, wanted: string)
    requires |header| >= 2 && forall k | 0 <= k < |header| :: '\t' !in header[k]
    requires |row| >= 2 && forall k | 0 <= k < |row| :: '\t' !in row[k]
    requires Strip(Join(header, '\t')) == Join(header, '\t') && Strip(Join(row, '\t')) == Join(row, '\t')
    requires StartsWith(header[0], "label")
    requires StartsWith(row[0], wanted) && !IsHeader(Join(row, '\t'))
    ensures Names([Join(header, '\t'), Join(row, '\t')], wanted) ==
      Ok(Zip(header[2..], row[2..], Min(|header| - 2, |row| - 2)))
  {
    JoinedLine(header, "label");
    JoinedLine(row, wanted);
    HeaderThenRow(Join(header, '\t'), Join(row, '\t'), wanted, header[2..], row[2..]);
  }

  /** A tab-joined line starts as its first field does, and its fields from the third on are read back. */
  lemma JoinedLine(parts: seq<string>, start: string)
    requires |parts| >= 2 && forall k | 0 <= k < |parts| :: '\t' !in parts[k]
    requires Strip(Join(parts, '\t')) == Join(parts, '\t')
    requires StartsWith(parts[0], start)
    ensures StartsWith(Join(parts, '\t'), start)
    ensures Fields(Join(parts, '\t')) == parts[2..]
  {
    JoinStartsWithFirst(parts);
    StartsWithPrefix(Join(parts, '\t'), parts[0], start);
    FieldsOfJoined(parts);
  }

  /** A header line followed by the wanted row: the header's names pair with the row's groups. */
  lemma HeaderThenRow(h: string, r: string, wanted: string, names: seq<string>, groups: seq<string>)
    requires IsHeader(h) && IsRow(r, wanted) && Fields(h) == names && Fields(r) == groups
    ensures Names([h, r], wanted) == Ok(Zip(names, groups, Min(|names|, |groups|)))
  {
    var lines := [h, r];
    assert lines[..1] == [h];
    FirstRowUsed(lines, wanted, 1);
  }

  /** A joined line starts with its first field. */
  lemma JoinStartsWithFirst(parts: seq<string>)
    requires |parts| >= 1
    ensures StartsWith(Join(parts, '\t'), parts[0])
  {
    if |parts| > 1 {
      assert Join(parts, '\t')[..|parts[0]|] == parts[0];
    }
  }

  /** The output has one line per position of the shorter list, each the name and its stripped group. */
  lemma {:induction false} ZipExact(names: seq<string>, groups: seq<string>, n: nat)
    requires n <= |names| && n <= |groups|
    ensures |Zip(names, groups, n)| == n
    ensures forall i | 0 <= i < n :: Zip(names, groups, n)[i] == names[i] + "\t" + Strip(groups[i])
  {
    if n > 0 {
      ZipExact(names, groups, n - 1);
    }
  }

  /**
   * Each printed line splits on its tab back into the OTU name and the
   * stripped group; there are as many lines as the shorter of the two lists.
   */
  lemma OutputParsesBack(lines: seq<string>, wanted: string, i: nat)
    requires Names(lines, wanted).Ok?
    ensures var f := Scan(lines, wanted, 0, None).value;
      |Names(lines, wanted).value| == Min(|f.names.value|, |f.groups|)
    ensures var f := Scan(lines, wanted, 0, None).value;
      i < |Names(lines, wanted).value| ==>
        Split(Names(lines, wanted).value[i], '\t') == [f.names.value[i], Strip(f.groups[i])]
  {
    var f := Scan(lines, wanted, 0, None).value;
    var ns := f.names.value;
    var gs := f.groups;
    ScanFieldsTabFree(lines, wanted, 0, None);
    ZipExact(ns, gs, Min(|ns|, |gs|));
    if i < Min(|ns|, |gs|) {
      StripKeepsOut(gs[i], '\t');
      assert Join([ns[i], Strip(gs[i])], '\t') == ns[i] + "\t" + Strip(gs[i]);
      SplitJoin([ns[i], Strip(gs[i])], '\t');
    }
  }

  /** The names and groups the scan collects hold no tab. */
  lemma {:induction false} ScanFieldsTabFree(lines: seq<string>, wanted: string, i: nat, names: Option<seq<string>>)
    requires i <= |lines|
    requires names.Some? ==> forall k | 0 <= k < |names.value| :: '\t' !in names.value[k]
    requires Scan(lines, wanted, i, names).Ok?
    ensures var f := Scan(lines, wanted, i, names).value;
      (f.names.Some? ==> forall k | 0 <= k < |f.names.value| :: '\t' !in f.names.value[k]) &&
      forall k | 0 <= k < |f.groups| :: '\t' !in f.groups[k]
    decreases |lines| - i
  {
    if IsHeader(lines[i]) {
      ScanFieldsTabFree(lines, wanted, i + 1, Some(Fields(lines[i])));
    } else if !StartsWith(lines[i], wanted) {
      ScanFieldsTabFree(lines, wanted, i + 1, names);
    }
  }
}
