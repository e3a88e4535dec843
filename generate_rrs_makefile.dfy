/**
 * The Makefile-rule generator (scripts/generate_rrs_makefile.py): one
 * download rule per 16S rRNA library, then, for each analysis group in
 * sorted order, two concatenation rules over the group's libraries.
 */
module RrsMakefile {
  import opened Text

  /** A row of the library table: its id and its SRA accession. */
  datatype Library = Library(id: string, sra: string)

  /** A row of the library/analysis-group join. */
  datatype Membership = Membership(library: string, group: string)

  const Recipe := "\tcat $^ > $@"

  /** The download rule of one library. */
  function LibraryLine(lib: Library): string
  {
    "raw/rrs/" + lib.id + ".rrs.r1.fastq.gz raw/rrs/" + lib.id + ".rrs.r2.fastq.gz: SRA_ID := " + lib.sra
  }

  /** The download rules of the libraries, in row order. */
  function LibraryLines(libs: seq<Library>): (out: seq<string>)
  {
    if libs == [] then [] else LibraryLines(libs[..|libs| - 1]) + [LibraryLine(libs[|libs| - 1])]
  }

  // Python's ordering of strings: by code point, a proper prefix first.

  predicate Less(a: string, b: string)
  {
    if a == [] then b != []
    else if b == [] then false
    else if a[0] != b[0] then a[0] < b[0]
    else Less(a[1..], b[1..])
  }

  lemma {:induction false} LessIrreflexive(a: string)
    ensures !Less(a, a)
  {
    if a != [] {
      LessIrreflexive(a[1..]);
    }
  }

  lemma {:induction false} LessTransitive(a: string, b: string, c: string)
    requires Less(a, b) && Less(b, c)
    ensures Less(a, c)
  {
    if a != [] && a[0] == b[0] && b[0] == c[0] {
      LessTransitive(a[1..], b[1..], c[1..]);
    }
  }

  lemma {:induction false} LessTotal(a: string, b: string)
    requires a != b
    ensures Less(a, b) || Less(b, a)
  {
    if a != [] && b != [] && a[0] == b[0] {
      assert a == [a[0]] + a[1..] && b == [b[0]] + b[1..];
      LessTotal(a[1..], b[1..]);
    }
  }

  /** Strictly increasing, hence free of repeats. */
  predicate Sorted(ks: seq<string>)
  {
    forall i, j | 0 <= i < j < |ks| :: Less(ks[i], ks[j])
  }

  /** Insertion of a group name into a sorted list of distinct names. */
  function Insert(ks: seq<string>, g: string): (r: seq<string>)
    ensures forall k :: k in r <==> k in ks || k == g
  {
    if ks == [] then [g]
    else if g == ks[0] then ks
    else if Less(g, ks[0]) then [g] + ks
    else [ks[0]] + Insert(ks[1..], g)
  }

  lemma {:induction false} InsertSorted(ks: seq<string>, g: string)
    requires Sorted(ks)
    ensures Sorted(Insert(ks, g))
  {
    if ks != [] && g != ks[0] {
      if Less(g, ks[0]) {
        forall j | 0 <= j < |ks|
          ensures Less(g, ks[j])
        {
          if j > 0 {
            LessTransitive(g, ks[0], ks[j]);
          }
        }
      } else {
        LessTotal(g, ks[0]);
        InsertSorted(ks[1..], g);
        var r := Insert(ks[1..], g);
        forall j | 0 <= j < |r|
          ensures Less(ks[0], r[j])
        {
          assert r[j] in r;
          if r[j] != g {
            var i :| 0 <= i < |ks[1..]| && ks[1..][i] == r[j];
            assert ks[i + 1] == r[j];
          }
        }
      }
    }
  }

  /** The group names of the join rows, in the sorted order `groupby` visits them. */
  function Keys(rows: seq<Membership>): seq<string>
  {
    if rows == [] then [] else Insert(Keys(rows[..|rows| - 1]), rows[|rows| - 1].group)
  }

  /** The libraries of group `g`, in row order. */
  function Members(rows: seq<Membership>, g: string): seq<string>
  {
    if rows == [] then []
    else Members(rows[..|rows| - 1], g) + (if rows[|rows| - 1].group == g then [rows[|rows| - 1].library] else [])
  }

  function FnSplit(lib: string): string { "seq/split/" + lib + ".rrs.fuse.fn" }

  function GroupsSplit(lib: string): string { "res/split/" + lib + ".rrs.fuse.groups" }

  function FnSplits(libs: seq<string>): (r: seq<string>)
    ensures |r| == |libs| && forall i | 0 <= i < |libs| :: r[i] == FnSplit(libs[i])
  {
    seq(|libs|, i requires 0 <= i < |libs| => FnSplit(libs[i]))
  }

  function GroupsSplits(libs: seq<string>): (r: seq<string>)
    ensures |r| == |libs| && forall i | 0 <= i < |libs| :: r[i] == GroupsSplit(libs[i])
  {
    seq(|libs|, i requires 0 <= i < |libs| => GroupsSplit(libs[i]))
  }

  /** The rule line of the group's concatenated reads. */
  function FnRule(g: string, libs: seq<string>): string
  {
    "seq/" + g + ".rrs.fuse.fn: " + Join(FnSplits(libs), ' ')
  }

  /** The rule line of the group's concatenated OTU assignments. */
  function GroupsRule(g: string, libs: seq<string>): string
  {
    "res/" + g + ".rrs.fuse.groups: " + Join(GroupsSplits(libs), ' ')
  }

  /** The two rules of one group: a rule line and its recipe line each. */
  function GroupLines(g: string, libs: seq<string>): seq<string>
  {
    [FnRule(g, libs), Recipe, GroupsRule(g, libs), Recipe]
  }

  /** The rules of the listed groups, one block after another. */
  function GroupBlocks(rows: seq<Membership>, ks: seq<string>): seq<string>
  {
    if ks == [] then [] else GroupBlocks(rows, ks[..|ks| - 1]) + GroupLines(ks[|ks| - 1], Members(rows, ks[|ks| - 1]))
  }

  /** The printed Makefile. */
  function Makefile(libs: seq<Library>, rows: seq<Membership>): seq<string>
  {
    LibraryLines(libs) + GroupBlocks(rows, Keys(rows))
  }

  /** `main` (generate_rrs_makefile.py:7-23), over the rows the two queries return. */
  method GenerateMakefile(libs: seq<Library>, rows: seq<Membership>) returns (out: seq<string>)
    ensures out == Makefile(libs, rows)
  {
    out := LibraryRules(libs);
    var keys := GroupKeys(rows);
    var blocks := GroupRules(rows, keys);
    out := out + blocks;
  }

  /** The second loop (generate_rrs_makefile.py:14-23): the four lines of each group, in key order. */
  method GroupRules(rows: seq<Membership>, keys: seq<string>) returns (out: seq<string>)
    ensures out == GroupBlocks(rows, keys)
  {
    out := [];
    for k := 0 to |keys|
      invariant out == GroupBlocks(rows, keys[..k])
    {
      assert keys[..k + 1][..k] == keys[..k];
      var members := GroupMembers(rows, keys[k]);
      out := out + GroupLines(keys[k], members);
    }
    assert keys[..|keys|] == keys;
  }

  /** The first loop (generate_rrs_makefile.py:11-12): one download rule per library row. */
  method LibraryRules(libs: seq<Library>) returns (out: seq<string>)
    ensures out == LibraryLines(libs)
  {
    out := [];
    for i := 0 to |libs|
      invariant out == LibraryLines(libs[..i])
    {
      assert libs[..i + 1][..i] == libs[..i];
      out := out + [LibraryLine(libs[i])];
    }
    assert libs[..|libs|] == libs;
  }

  /** The sorted, distinct group names (`groupby` sorts its keys). */
  method GroupKeys(rows: seq<Membership>) returns (keys: seq<string>)
    ensures keys == Keys(rows)
  {
    keys := [];
    for i := 0 to |rows|
      invariant keys == Keys(rows[..i])
    {
      assert rows[..i + 1][..i] == rows[..i];
      keys := Insert(keys, rows[i].group);
    }
    assert rows[..|rows|] == rows;
  }

  /** `d.rrs_library_id` for the group `g`. */
  method GroupMembers(rows: seq<Membership>, g: string) returns (members: seq<string>)
    ensures members == Members(rows, g)
  {
    members := [];
    for i := 0 to |rows|
      invariant members == Members(rows[..i], g)
    {
      assert rows[..i + 1][..i] == rows[..i];
      if rows[i].group == g {
        members := members + [rows[i].library];
      }
    }
    assert rows[..|rows|] == rows;
  }

  // Properties.

  /** One download rule per library, each the library's own, in row order. */
  lemma {:induction false} LibraryLinesExact(libs: seq<Library>)
    ensures |LibraryLines(libs)| == |libs|
    ensures forall i | 0 <= i < |libs| :: LibraryLines(libs)[i] == LibraryLine(libs[i])
  {
    if libs != [] {
      var n := |libs| - 1;
      LibraryLinesExact(libs[..n]);
    }
  }

  /** Four lines per listed group. */
  lemma {:induction false} GroupBlocksLength(rows: seq<Membership>, ks: seq<string>)
    ensures |GroupBlocks(rows, ks)| == 4 * |ks|
  {
    if ks != [] {
      GroupBlocksLength(rows, ks[..|ks| - 1]);
    }
  }

  /** The block of the `k`-th group sits at lines 4k to 4k+3. */
  lemma {:induction false} GroupBlockAt(rows: seq<Membership>, ks: seq<string>, k: nat)
    requires k < |ks|
    ensures |GroupBlocks(rows, ks)| == 4 * |ks|
    ensures GroupBlocks(rows, ks)[4 * k .. 4 * k + 4] == GroupLines(ks[k], Members(rows, ks[k]))
  {
    GroupBlocksLength(rows, ks);
    var n := |ks| - 1;
    GroupBlocksLength(rows, ks[..n]);
    var prev, last := GroupBlocks(rows, ks[..n]), GroupLines(ks[n], Members(rows, ks[n]));
    assert GroupBlocks(rows, ks) == prev + last;
    if k < n {
      GroupBlockAt(rows, ks[..n], k);
      assert ks[..n][k] == ks[k];
      SliceOfFront(prev, last, 4 * k, 4 * k + 4);
    } else {
      assert (prev + last)[|prev|..] == last;
    }
  }

  lemma SliceOfFront(front: seq<string>, back: seq<string>, i: nat, j: nat)
    requires i <= j <= |front|
    ensures (front + back)[i..j] == front[i..j]
  {
  }

  /** The group names are sorted, distinct, and exactly those of the rows. */
  lemma {:induction false} KeysExact(rows: seq<Membership>)
    ensures Sorted(Keys(rows))
    ensures forall g :: g in Keys(rows) <==> exists i | 0 <= i < |rows| :: rows[i].group == g
  {
    if rows != [] {
      var n := |rows| - 1;
      KeysExact(rows[..n]);
      InsertSorted(Keys(rows[..n]), rows[n].group);
      var ks := Keys(rows[..n]);
      forall g
        ensures g in Keys(rows) <==> exists i | 0 <= i < |rows| :: rows[i].group == g
      {
        assert g in Keys(rows) <==> g in (set k | k in ks) + {rows[n].group};
        if exists i | 0 <= i < |rows| :: rows[i].group == g {
          var i :| 0 <= i < |rows| && rows[i].group == g;
          if i < n {
            assert rows[..n][i].group == g;
          }
        }
        if g in ks {
          var i :| 0 <= i < n && rows[..n][i].group == g;
          assert rows[i].group == g;
        }
      }
    }
  }

  /** Two sorted lists with the same elements are equal, so the order of the groups is fully determined. */
  lemma {:induction false} SortedUnique(a: seq<string>, b: seq<string>)
    requires Sorted(a) && Sorted(b)
    requires forall g :: g in a <==> g in b
    ensures a == b
  {
    SameEmptiness(a, b);
    if a != [] && b != [] {
      HeadsAgree(a, b);
      forall g
        ensures g in a[1..] <==> g in b[1..]
      {
        if g in a[1..] {
          TailMember(a, b, g);
        }
        if g in b[1..] {
          TailMember(b, a, g);
        }
      }
      SortedUnique(a[1..], b[1..]);
      assert a == [a[0]] + a[1..] && b == [b[0]] + b[1..];
    }
  }

  lemma SameEmptiness(a: seq<string>, b: seq<string>)
    requires forall g :: g in a <==> g in b
    ensures a == [] <==> b == []
  {
    if a != [] {
      assert a[0] in a;
    }
    if b != [] {
      assert b[0] in b;
    }
  }

  /** No element of a sorted list is below its head. */
  lemma NotBelowHead(a: seq<string>, x: string)
    requires Sorted(a) && x in a
    ensures !Less(x, a[0])
  {
    var j :| 0 <= j < |a| && a[j] == x;
    LessIrreflexive(a[0]);
    if j > 0 && Less(x, a[0]) {
      LessTransitive(a[0], x, a[0]);
    }
  }

  lemma HeadsAgree(a: seq<string>, b: seq<string>)
    requires Sorted(a) && Sorted(b) && a != [] && b != []
    requires forall g :: g in a <==> g in b
    ensures a[0] == b[0]
  {
    assert a[0] in a && b[0] in b;
    NotBelowHead(b, a[0]);
    NotBelowHead(a, b[0]);
    if a[0] != b[0] {
      LessTotal(a[0], b[0]);
    }
  }

  /** An element of the tail of one sorted list is in the tail of another with the same head and elements. */
  lemma TailMember(a: seq<string>, b: seq<string>, g: string)
    requires Sorted(a) && a != [] && b != [] && a[0] == b[0]
    requires forall h :: h in a <==> h in b
    requires g in a[1..]
    ensures g in b[1..]
  {
    var i :| 0 <= i < |a[1..]| && a[1..][i] == g;
    assert Less(a[0], a[i + 1]);
    LessIrreflexive(a[0]);
    assert g in b;
    var j :| 0 <= j < |b| && b[j] == g;
    assert b[1..][j - 1] == g;
  }

  /**
   * The groups are visited in the one order `groupby` uses: any sorted list
   * of exactly the rows' group names is the list of keys.
   */
  lemma KeysAreTheSortedGroups(rows: seq<Membership>, ks: seq<string>)
    requires Sorted(ks)
    requires forall g :: g in ks <==> exists i | 0 <= i < |rows| :: rows[i].group == g
    ensures ks == Keys(rows)
  {
    KeysExact(rows);
    SortedUnique(ks, Keys(rows));
  }

  /** A group's libraries are exactly those of its rows, one per row, in row order. */
  lemma {:induction false} MembersExact(rows: seq<Membership>, g: string, lib: string)
    ensures lib in Members(rows, g) <==> Membership(lib, g) in rows
  {
    if rows != [] {
      var n := |rows| - 1;
      MembersExact(rows[..n], g, lib);
      assert rows == rows[..n] + [rows[n]];
    }
  }

  /** The printed Makefile: the download rules of all libraries first, then four lines per group. */
  lemma LibrariesFirst(libs: seq<Library>, rows: seq<Membership>)
    ensures |Makefile(libs, rows)| == |libs| + 4 * |Keys(rows)|
    ensures forall i | 0 <= i < |libs| :: Makefile(libs, rows)[i] == LibraryLine(libs[i])
  {
    LibraryLinesExact(libs);
    GroupBlocksLength(rows, Keys(rows));
  }

  /**
   * After the download rules, the `k`-th group in sorted order has its
   * `.fn` rule, a recipe line, its `.groups` rule and a recipe line.
   */
  lemma GroupRulesAt(libs: seq<Library>, rows: seq<Membership>, k: nat)
    requires k < |Keys(rows)|
    ensures |libs| + 4 * k + 3 < |Makefile(libs, rows)|
    ensures var g := Keys(rows)[k];
      var at := |libs| + 4 * k;
      Makefile(libs, rows)[at] == FnRule(g, Members(rows, g)) &&
      Makefile(libs, rows)[at + 1] == Recipe &&
      Makefile(libs, rows)[at + 2] == GroupsRule(g, Members(rows, g)) &&
      Makefile(libs, rows)[at + 3] == Recipe
  {
    var g := Keys(rows)[k];
    var blocks := GroupBlocks(rows, Keys(rows));
    LibraryLinesExact(libs);
    GroupBlockAt(rows, Keys(rows), k);
    FourAt(LibraryLines(libs), blocks, k, GroupLines(g, Members(rows, g)));
    assert Makefile(libs, rows) == LibraryLines(libs) + blocks;
  }

  /** Four consecutive lines of the second part of a concatenation, read through the whole. */
  lemma FourAt(front: seq<string>, back: seq<string>, k: nat, four: seq<string>)
    requires 4 * k + 4 <= |back| && |four| == 4 && back[4 * k .. 4 * k + 4] == four
    ensures (front + back)[|front| + 4 * k] == four[0]
    ensures (front + back)[|front| + 4 * k + 1] == four[1]
    ensures (front + back)[|front| + 4 * k + 2] == four[2]
    ensures (front + back)[|front| + 4 * k + 3] == four[3]
  {
    assert back[4 * k .. 4 * k + 4][0] == back[4 * k];
    assert back[4 * k .. 4 * k + 4][1] == back[4 * k + 1];
    assert back[4 * k .. 4 * k + 4][2] == back[4 * k + 2];
    assert back[4 * k .. 4 * k + 4][3] == back[4 * k + 3];
  }

  /** The prerequisite list splits on spaces back into one file per library, when library ids hold no space. */
  lemma PrerequisitesParseBack(libs: seq<string>)
    requires |libs| >= 1 && forall i | 0 <= i < |libs| :: ' ' !in libs[i]
    ensures Split(Join(FnSplits(libs), ' '), ' ') == FnSplits(libs)
    ensures Split(Join(GroupsSplits(libs), ' '), ' ') == GroupsSplits(libs)
  {
    SplitJoin(FnSplits(libs), ' ');
    SplitJoin(GroupsSplits(libs), ' ');
  }
}
