/**
 * The names-file expander (scripts/parse_names_as_taxonomy.py): every
 * `representative<TAB>member,member,...` line of a MOTHUR names file
 * becomes one taxonomy row per member, (member, taxon_level,
 * representative, taxon_level_b, "100"). The two levels are the script's
 * second and third command-line arguments.
 */
module NamesTaxonomy {
  import opened Wrappers
  import opened Text

  datatype Row = Row(taxon: string, level: string, taxonB: string, levelB: string, confidence: string)

  /** The rows printed, and the 0-based input line that did not split into exactly two tab fields, if any. */
  datatype Run = Run(rows: seq<Row>, badLine: Option<nat>)

  const Header: seq<string> := ["taxon_id", "taxon_level", "taxon_id_b", "taxon_level_b", "confidence"]

  /** `subseqs_string.strip().split(',')`. */
  function Members(field: string): (ms: seq<string>)
    ensures |ms| == Count(Strip(field), ',') + 1
  {
    Split(Strip(field), ',')
  }

  /** A line that unpacks into a representative and its members. */
  datatype Entry = Entry(rep: string, members: seq<string>)

  /** `line.split('\t')` unpacked into exactly two fields, or nothing when it has another number of fields. */
  function ParseLine(line: string): (e: Option<Entry>)
    ensures e.Some? <==> Count(line, '\t') == 1
    ensures e.Some? ==> |Split(line, '\t')| == 2
    ensures e.Some? ==> e.value == Entry(Split(line, '\t')[0], Members(Split(line, '\t')[1]))
  {
    var fields := Split(line, '\t');
    if |fields| != 2 then None else Some(Entry(fields[0], Members(fields[1])))
  }

  /**
   * A names-file line written from a representative and its members (ids
   * without tab, comma or whitespace) parses back into them.
   */
  lemma LineRoundTrip(rep: string, members: seq<string>)
    requires '\t' !in rep
    requires |members| >= 1
    requires forall k | 0 <= k < |members| :: members[k] != "" && NoSpace(members[k]) && ',' !in members[k]
    ensures ParseLine(rep + "\t" + Join(members, ',')) == Some(Entry(rep, members))
  {
    var j := Join(members, ',');
    MembersTabFree(members);
    assert rep + "\t" + j == rep + ['\t'] + j;
    SplitPair(rep, j, '\t');
    MembersRoundTrip(members);
  }


  lemma MembersTabFree(members: seq<string>)
    requires forall k | 0 <= k < |members| :: NoSpace(members[k])
    ensures '\t' !in Join(members, ',')
  {
    forall k | 0 <= k < |members| ensures '\t' !in members[k] {
      assert forall i | 0 <= i < |members[k]| :: members[k][i] != '\t';
    }
    JoinKeepsOut(members, ',', '\t');
  }

  /** Members joined by commas come back from the field. */
  lemma MembersRoundTrip(members: seq<string>)
    requires |members| >= 1
    requires forall k | 0 <= k < |members| :: members[k] != "" && NoSpace(members[k]) && ',' !in members[k]
    ensures Members(Join(members, ',')) == members
  {
    var j := Join(members, ',');
    JoinEnds(members, ',');
    var last := members[|members| - 1];
    assert !IsSpace(last[|last| - 1]);
    StripUnpadded(j);
    SplitJoin(members, ',');
  }

  lemma StripUnpadded(j: string)
    requires j != "" && !IsSpace(j[0]) && !IsSpace(j[|j| - 1])
    ensures Strip(j) == j
  {
    StripCharsPadded("", j, "", Spaces);
    assert "" + j + "" == j;
  }

  /** A join of parts without `c`, on a separator other than `c`, has no `c`. */
  lemma {:induction false} JoinKeepsOut(parts: seq<string>, sep: char, c: char)
    requires c != sep && forall k | 0 <= k < |parts| :: c !in parts[k]
    ensures c !in Join(parts, sep)
  {
    if |parts| > 1 {
      assert forall k | 0 <= k < |parts[1..]| :: parts[1..][k] == parts[k + 1];
      JoinKeepsOut(parts[1..], sep, c);
    }
  }

  /** The representative and the members of a parsed line hold no tab. */
  lemma EntryTabFree(line: string)
    requires ParseLine(line).Some?
    ensures var e := ParseLine(line).value;
      '\t' !in e.rep && forall k | 0 <= k < |e.members| :: '\t' !in e.members[k]
  {
    var fields := Split(line, '\t');
    StripKeepsOut(fields[1], '\t');
    var ms := Members(fields[1]);
    assert Join(ms, ',') == Strip(fields[1]);
    forall k | 0 <= k < |ms|
      ensures '\t' !in ms[k]
    {
      PartOfJoin(ms, ',', k, '\t');
    }
  }

  function Entries(lines: seq<string>): (es: seq<Option<Entry>>)
    ensures |es| == |lines| && forall j | 0 <= j < |lines| :: es[j] == ParseLine(lines[j])
  {
    seq(|lines|, j requires 0 <= j < |lines| => ParseLine(lines[j]))
  }

  /** The rows of the first `k` members of one line. */
  function MemberRows(e: Entry, level: string, levelB: string, k: nat): seq<Row>
    requires k <= |e.members|
  {
    if k == 0 then [] else MemberRows(e, level, levelB, k - 1) + [Row(e.members[k - 1], level, e.rep, levelB, "100")]
  }

  /** The parsed lines processed in order; the first malformed one stops the script. */
  function ExpandEntries(es: seq<Option<Entry>>, level: string, levelB: string): (r: Run)
    decreases |es|
  {
    if es == [] then Run([], None)
    else
      var j := |es| - 1;
      var prev := ExpandEntries(es[..j], level, levelB);
      if prev.badLine.Some? then prev
      else
        match es[j]
        case None => Run(prev.rows, Some(j))
        case Some(e) => Run(prev.rows + MemberRows(e, level, levelB, |e.members|), None)
  }

  /** The whole script over the lines of the names file. */
  function Expand(lines: seq<string>, level: string, levelB: string): Run
  {
    ExpandEntries(Entries(lines), level, levelB)
  }

  /** The printed text: the header, then one tab-joined line per row. */
  function Output(lines: seq<string>, level: string, levelB: string): (out: seq<string>)
  {
    [Join(Header, '\t')] + FormatRows(Expand(lines, level, levelB).rows)
  }

  function FormatRow(r: Row): string
  {
    Join([r.taxon, r.level, r.taxonB, r.levelB, r.confidence], '\t')
  }

  function FormatRows(rows: seq<Row>): (out: seq<string>)
    ensures |out| == |rows|
    ensures forall i | 0 <= i < |rows| :: out[i] == FormatRow(rows[i])
  {
    seq(|rows|, i requires 0 <= i < |rows| => FormatRow(rows[i]))
  }

  /** The nested loops of `main` (parse_names_as_taxonomy.py:11-15). */
  method ExpandNames(lines: seq<string>, level: string, levelB: string) returns (rows: seq<Row>, badLine: Option<nat>)
    ensures Run(rows, badLine) == Expand(lines, level, levelB)
  {
    rows, badLine := ExpandParsed(Entries(lines), level, levelB);
  }

  /** The outer loop over the parsed lines: stop at the first malformed one. */
  method ExpandParsed(es: seq<Option<Entry>>, level: string, levelB: string) returns (rows: seq<Row>, badLine: Option<nat>)
    ensures Run(rows, badLine) == ExpandEntries(es, level, levelB)
  {
    rows := [];
    badLine := None;
    var j := 0;
    while j < |es|
      invariant 0 <= j <= |es|
      invariant ExpandEntries(es[..j], level, levelB) == Run(rows, None)
    {
      assert es[..j + 1][..j] == es[..j];
      var parsed := es[j];
      if parsed.None? {
        badLine := Some(j);
        assert ExpandEntries(es[..j + 1], level, levelB) == Run(rows, Some(j));
        BadLineSticks(es, level, levelB, j + 1);
        assert es[..|es|] == es;
        return;
      }
      rows := AppendMemberRows(rows, parsed.value, level, levelB);
      j := j + 1;
    }
    assert es[..j] == es;
  }

  /** The inner loop: one row per member of the line, appended in order. */
  method AppendMemberRows(before: seq<Row>, e: Entry, level: string, levelB: string) returns (rows: seq<Row>)
    ensures rows == before + MemberRows(e, level, levelB, |e.members|)
  {
    rows := before;
    var k := 0;
    while k < |e.members|
      invariant 0 <= k <= |e.members|
      invariant rows == before + MemberRows(e, level, levelB, k)
    {
      rows := rows + [Row(e.members[k], level, e.rep, levelB, "100")];
      k := k + 1;
    }
  }

  /** Once a line was malformed, later lines change nothing. */
  lemma {:induction false} BadLineSticks(es: seq<Option<Entry>>, level: string, levelB: string, j: nat)
    requires j <= |es| && ExpandEntries(es[..j], level, levelB).badLine.Some?
    ensures ExpandEntries(es, level, levelB) == ExpandEntries(es[..j], level, levelB)
    decreases |es| - j
  {
    if j < |es| {
      assert es[..j + 1][..j] == es[..j];
      BadLineSticks(es, level, levelB, j + 1);
    } else {
      assert es[..j] == es;
    }
  }

  /** A piece of a joined sequence holds no character absent from the whole. */
  lemma {:induction false} PartOfJoin(parts: seq<string>, sep: char, k: nat, c: char)
    requires k < |parts| && c !in Join(parts, sep)
    ensures c !in parts[k]
  {
    if |parts| > 1 {
      assert Join(parts, sep) == parts[0] + [sep] + Join(parts[1..], sep);
      if k > 0 {
        PartOfJoin(parts[1..], sep, k - 1, c);
      }
    }
  }

  // Properties.

  /** One row per member, in member order, each naming the representative and confidence "100". */
  lemma {:induction false} MemberRowsExact(e: Entry, level: string, levelB: string, k: nat)
    requires k <= |e.members|
    ensures |MemberRows(e, level, levelB, k)| == k
    ensures forall i | 0 <= i < k :: MemberRows(e, level, levelB, k)[i] == Row(e.members[i], level, e.rep, levelB, "100")
  {
    if k > 0 {
      MemberRowsExact(e, level, levelB, k - 1);
    }
  }

  /** An empty member list still yields one row, with an empty taxon id. */
  lemma EmptyMembersOneRow(rep: string)
    requires '\t' !in rep
    ensures ParseLine(rep + "\t\n") == Some(Entry(rep, [""]))
  {
    var line := rep + "\t\n";
    assert Join([rep, "\n"], '\t') == line;
    SplitJoin([rep, "\n"], '\t');
    StripAll("\n", Spaces);
    assert Split("", ',') == [""];
  }

  /** A string made only of stripped characters strips to nothing. */
  lemma StripAll(s: string, cs: set<char>)
    requires forall k | 0 <= k < |s| :: s[k] in cs
    ensures StripChars(s, cs) == ""
  {
  }

  /** The number of members over all parsed lines. */
  function TotalMembers(es: seq<Option<Entry>>): nat
  {
    if es == [] then 0
    else TotalMembers(es[..|es| - 1]) + (if es[|es| - 1].Some? then |es[|es| - 1].value.members| else 0)
  }

  /**
   * A file whose every line holds exactly one tab expands without failure
   * into one row per member.
   */
  lemma {:induction false} WellFormedExpands(es: seq<Option<Entry>>, level: string, levelB: string)
    requires forall j | 0 <= j < |es| :: es[j].Some?
    ensures ExpandEntries(es, level, levelB).badLine.None?
    ensures |ExpandEntries(es, level, levelB).rows| == TotalMembers(es)
    decreases |es|
  {
    if es != [] {
      var j := |es| - 1;
      assert forall i | 0 <= i < j :: es[..j][i] == es[i];
      WellFormedExpands(es[..j], level, levelB);
      MemberRowsExact(es[j].value, level, levelB, |es[j].value.members|);
    }
  }

  /** The script stops exactly at the first line whose tab count is not one, keeping the rows before it. */
  lemma FirstBadLine(lines: seq<string>, level: string, levelB: string, j: nat)
    requires j < |lines| && Count(lines[j], '\t') != 1
    requires forall i | 0 <= i < j :: Count(lines[i], '\t') == 1
    ensures Expand(lines, level, levelB) == Run(Expand(lines[..j], level, levelB).rows, Some(j))
  {
    var es := Entries(lines);
    assert Entries(lines[..j]) == es[..j];
    FirstBadEntry(es, level, levelB, j);
  }

  lemma FirstBadEntry(es: seq<Option<Entry>>, level: string, levelB: string, j: nat)
    requires j < |es| && es[j].None?
    requires forall i | 0 <= i < j :: es[i].Some?
    ensures ExpandEntries(es, level, levelB) == Run(ExpandEntries(es[..j], level, levelB).rows, Some(j))
  {
    assert forall i | 0 <= i < j :: es[..j][i].Some?;
    WellFormedExpands(es[..j], level, levelB);
    assert es[..j + 1][..j] == es[..j];
    BadLineSticks(es, level, levelB, j + 1);
  }

  /** The first printed line splits back into the five column names. */
  lemma OutputStartsWithHeader(lines: seq<string>, level: string, levelB: string)
    ensures Split(Output(lines, level, levelB)[0], '\t') == Header
  {
    SplitJoin(Header, '\t');
  }

  /** Every row carries the two level arguments, confidence "100", and tab-free ids. */
  lemma {:induction false} RowsShape(es: seq<Option<Entry>>, level: string, levelB: string, r: Row)
    requires forall j | 0 <= j < |es| :: es[j].Some? ==>
      '\t' !in es[j].value.rep && forall k | 0 <= k < |es[j].value.members| :: '\t' !in es[j].value.members[k]
    requires r in ExpandEntries(es, level, levelB).rows
    ensures r.level == level && r.levelB == levelB && r.confidence == "100"
    ensures '\t' !in r.taxon && '\t' !in r.taxonB
    decreases |es|
  {
    var j := |es| - 1;
    if r in ExpandEntries(es[..j], level, levelB).rows {
      assert forall i | 0 <= i < j :: es[..j][i] == es[i];
      RowsShape(es[..j], level, levelB, r);
    } else {
      var e := es[j].value;
      MemberRowsExact(e, level, levelB, |e.members|);
      var k :| 0 <= k < |e.members| && MemberRows(e, level, levelB, |e.members|)[k] == r;
    }
  }

  /**
   * Every printed row splits back into its five fields when the level
   * arguments hold no tab.
   */
  lemma OutputRowParsesBack(lines: seq<string>, level: string, levelB: string, i: nat)
    requires '\t' !in level && '\t' !in levelB
    requires i < |Expand(lines, level, levelB).rows|
    ensures var r := Expand(lines, level, levelB).rows[i];
      Split(Output(lines, level, levelB)[i + 1], '\t') == [r.taxon, level, r.taxonB, levelB, "100"]
  {
    var r := Expand(lines, level, levelB).rows[i];
    EntriesTabFree(lines);
    RowsShape(Entries(lines), level, levelB, r);
    assert Output(lines, level, levelB)[i + 1] == FormatRow(r);
    FormatRowSplits(r);
  }

  lemma EntriesTabFree(lines: seq<string>)
    ensures var es := Entries(lines);
      forall j | 0 <= j < |es| :: es[j].Some? ==>
        '\t' !in es[j].value.rep && forall k | 0 <= k < |es[j].value.members| :: '\t' !in es[j].value.members[k]
  {
    var es := Entries(lines);
    forall j | 0 <= j < |es| && es[j].Some?
      ensures '\t' !in es[j].value.rep && forall k | 0 <= k < |es[j].value.members| :: '\t' !in es[j].value.members[k]
    {
      EntryTabFree(lines[j]);
    }
  }

  lemma FormatRowSplits(r: Row)
    requires '\t' !in r.taxon && '\t' !in r.level && '\t' !in r.taxonB && '\t' !in r.levelB && r.confidence == "100"
    ensures Split(FormatRow(r), '\t') == [r.taxon, r.level, r.taxonB, r.levelB, r.confidence]
  {
    SplitJoin([r.taxon, r.level, r.taxonB, r.levelB, r.confidence], '\t');
  }
}
