/**
 * The helpers of the calibration plotter (scripts/plot_hplc_calibration.py):
 * `FIELD=VALUE` selector parsing, row selection by those selectors, and the
 * size of the grid of subplots.
 */
module PlotHelpers {
  import opened Wrappers
  import opened Text

  // Selectors (plot_hplc_calibration.py:32-37).

  /** One entry of the selector dictionary. */
  datatype Selector = Selector(column: string, value: string)

  /** Unpacking `pair.split('=')` into two names failed: the pair split into this many pieces. */
  datatype SelectorFailure = BadSelector(index: nat, pieces: nat)

  /** The columns of a dictionary, in insertion order. */
  function Columns(d: seq<Selector>): (cs: seq<string>)
    ensures |cs| == |d| && forall i | 0 <= i < |d| :: cs[i] == d[i].column
  {
    seq(|d|, i requires 0 <= i < |d| => d[i].column)
  }

  predicate Distinct(cs: seq<string>)
  {
    forall i, j | 0 <= i < j < |cs| :: cs[i] != cs[j]
  }

  /** `d[k] = v`: a present key keeps its place and takes the new value; a new key goes last. */
  function Put(d: seq<Selector>, k: string, v: string): seq<Selector>
  {
    if d == [] then [Selector(k, v)]
    else if d[0].column == k then [Selector(k, v)] + d[1..]
    else [d[0]] + Put(d[1..], k, v)
  }

  /** `d.get(k)`. */
  function Get(d: seq<Selector>, k: string): Option<string>
  {
    if d == [] then None
    else if d[0].column == k then Some(d[0].value)
    else Get(d[1..], k)
  }

  /** `first, second = pair.split('=')`, both stripped; unpacking needs exactly one `=`. */
  function ParsePair(pair: string): (r: Option<Selector>)
    ensures r.Some? <==> Count(pair, '=') == 1
    ensures r.Some? ==> |Split(pair, '=')| == 2
    ensures r.Some? ==> r.value == Selector(Strip(Split(pair, '=')[0]), Strip(Split(pair, '=')[1]))
  {
    var p := Split(pair, '=');
    if |p| != 2 then None else Some(Selector(Strip(p[0]), Strip(p[1])))
  }

  /** `KEY=VALUE` with no other `=` parses into the stripped key and the stripped value. */
  lemma PairRoundTrip(key: string, value: string)
    requires '=' !in key && '=' !in value
    ensures ParsePair(key + "=" + value) == Some(Selector(Strip(key), Strip(value)))
  {
    assert Join([key, value], '=') == key + "=" + value;
    SplitJoin([key, value], '=');
  }

  /** The dictionary built from the selector strings, or the first that does not unpack. */
  function Selectors(pairs: seq<string>): Result<seq<Selector>, SelectorFailure>
  {
    if pairs == [] then Ok([])
    else
      var n := |pairs| - 1;
      var prev := Selectors(pairs[..n]);
      var sel := ParsePair(pairs[n]);
      if prev.Err? then prev
      else if sel.None? then Err(BadSelector(n, Count(pairs[n], '=') + 1))
      else Ok(Put(prev.value, sel.value.column, sel.value.value))
  }

  /** `parse_selectors` (plot_hplc_calibration.py:32-37). */
  method ParseSelectors(pairs: seq<string>) returns (r: Result<seq<Selector>, SelectorFailure>)
    ensures r == Selectors(pairs)
  {
    var output: seq<Selector> := [];
    for i := 0 to |pairs|
      invariant Selectors(pairs[..i]) == Ok(output)
    {
      assert pairs[..i + 1][..i] == pairs[..i];
      var p := Split(pairs[i], '=');
      assert pairs[..i + 1][i] == pairs[i];
      if |p| != 2 {
        assert ParsePair(pairs[i]).None?;
        assert |p| == Count(pairs[i], '=') + 1;
        assert Selectors(pairs[..i + 1]) == Err(BadSelector(i, |p|));
        FailureSticks(pairs, i + 1);
        return Err(BadSelector(i, |p|));
      }
      output := Put(output, Strip(p[0]), Strip(p[1]));
    }
    assert pairs[..|pairs|] == pairs;
    return Ok(output);
  }

  /** Once a selector failed to unpack, the later ones change nothing. */
  lemma {:induction false} FailureSticks(pairs: seq<string>, j: nat)
    requires j <= |pairs| && Selectors(pairs[..j]).Err?
    ensures Selectors(pairs) == Selectors(pairs[..j])
    decreases |pairs| - j
  {
    if j < |pairs| {
      assert pairs[..j + 1][..j] == pairs[..j];
      FailureSticks(pairs, j + 1);
    } else {
      assert pairs[..j] == pairs;
    }
  }

  // Properties of the selectors.

  /** Writing a key: reading it back gives the new value, every other key is untouched. */
  lemma {:induction false} GetPut(d: seq<Selector>, k: string, v: string, k': string)
    ensures Get(Put(d, k, v), k') == if k' == k then Some(v) else Get(d, k')
  {
    if d != [] && d[0].column != k {
      GetPut(d[1..], k, v, k');
    }
  }

  /** Writing keeps the keys distinct and adds only the written key. */
  lemma {:induction false} PutColumns(d: seq<Selector>, k: string, v: string)
    requires Distinct(Columns(d))
    ensures Distinct(Columns(Put(d, k, v)))
    ensures forall c :: c in Columns(Put(d, k, v)) <==> c in Columns(d) || c == k
  {
    if d != [] && d[0].column != k {
      assert Distinct(Columns(d[1..])) by {
        assert forall i | 0 <= i < |d| - 1 :: Columns(d[1..])[i] == Columns(d)[i + 1];
      }
      PutColumns(d[1..], k, v);
      var r := Put(d[1..], k, v);
      assert Columns(Put(d, k, v)) == [d[0].column] + Columns(r);
      assert d[0].column !in Columns(d[1..]) by {
        assert forall i | 0 <= i < |d| - 1 :: Columns(d[1..])[i] == Columns(d)[i + 1];
      }
    } else if d != [] {
      assert forall i | 0 <= i < |d| :: Put(d, k, v)[i].column == d[i].column;
      assert Columns(Put(d, k, v)) == Columns(d);
      assert Columns(d)[0] == k;
    } else {
      assert Columns(Put(d, k, v)) == [k];
    }
  }

  /** A selector string that unpacks: it holds exactly one `=` (the contract of `ParsePair`). */
  predicate Unpacks(pair: string)
  {
    ParsePair(pair).Some?
  }

  /** Parsing succeeds exactly when every selector string holds exactly one `=`. */
  lemma {:induction false} SelectorsSucceed(pairs: seq<string>)
    ensures Selectors(pairs).Ok? <==> forall i | 0 <= i < |pairs| :: Unpacks(pairs[i])
  {
    if pairs != [] {
      var n := |pairs| - 1;
      SelectorsSucceed(pairs[..n]);
      assert Unpacks(pairs[n]) <==> ParsePair(pairs[n]).Some?;
      if Selectors(pairs).Ok? {
        assert Unpacks(pairs[n]);
        assert Selectors(pairs[..n]).Ok?;
        forall i | 0 <= i < |pairs|
          ensures Unpacks(pairs[i])
        {
          if i < n {
            assert Unpacks(pairs[..n][i]);
            assert pairs[..n][i] == pairs[i];
          } else {
            assert i == n;
          }
        }
      } else if Selectors(pairs[..n]).Err? {
        var i :| 0 <= i < n && !Unpacks(pairs[..n][i]);
        assert pairs[i] == pairs[..n][i];
      }
    }
  }

  /** The value of the last selector among `pairs` whose stripped key is `k`. */
  function LastValue(pairs: seq<string>, k: string): Option<string>
    requires forall i | 0 <= i < |pairs| :: Unpacks(pairs[i])
  {
    if pairs == [] then None
    else
      var n := |pairs| - 1;
      assert Unpacks(pairs[n]);
      var sel := ParsePair(pairs[n]).value;
      if sel.column == k then Some(sel.value) else LastValue(pairs[..n], k)
  }

  /**
   * The parsed dictionary maps each key to the stripped value of the last
   * selector with that stripped key, and holds each key once.
   */
  lemma {:induction false} LastValueWins(pairs: seq<string>, k: string)
    requires forall i | 0 <= i < |pairs| :: Unpacks(pairs[i])
    ensures Selectors(pairs).Ok?
    ensures Get(Selectors(pairs).value, k) == LastValue(pairs, k)
    ensures Distinct(Columns(Selectors(pairs).value))
  {
    SelectorsSucceed(pairs);
    if pairs != [] {
      var n := |pairs| - 1;
      assert forall i | 0 <= i < n :: pairs[..n][i] == pairs[i];
      LastValueWins(pairs[..n], k);
      assert Unpacks(pairs[n]);
      var d := Selectors(pairs[..n]).value;
      var sel := ParsePair(pairs[n]).value;
      GetPut(d, sel.column, sel.value, k);
      PutColumns(d, sel.column, sel.value);
    }
  }

  // Row selection (plot_hplc_calibration.py:39-47).

  /** A table cell: text, a number, or missing. */
  datatype Cell = Str(s: string) | Num(x: real) | Null

  /** A table with distinct column names and one cell per column in every row. */
  datatype Frame = Frame(columns: seq<string>, rows: seq<seq<Cell>>)
  {
    ghost predicate Valid()
    {
      Distinct(columns) && forall r | 0 <= r < |rows| :: |rows[r]| == |columns|
    }
  }

  /** `df[col]` raised: the table has no such column. */
  datatype SubsetFailure = MissingColumn(name: string)

  /** `row[c] == value` for a string value: only a text cell with exactly that text is equal. */
  predicate Holds(row: seq<Cell>, c: nat, v: string)
  {
    c < |row| && row[c] == Str(v)
  }

  /** `df[df[col] == value]`: the rows whose cell in column `c` holds `v`, in order. */
  function KeepIf(rows: seq<seq<Cell>>, c: nat, v: string): seq<seq<Cell>>
  {
    if rows == [] then []
    else
      var n := |rows| - 1;
      KeepIf(rows[..n], c, v) + (if Holds(rows[n], c, v) then [rows[n]] else [])
  }

  /** The rows left after the selectors, or the first missing column. */
  function Subset(f: Frame, sels: seq<Selector>): Result<seq<seq<Cell>>, SubsetFailure>
  {
    if sels == [] then Ok(f.rows)
    else
      var n := |sels| - 1;
      match Subset(f, sels[..n])
      case Err(e) => Err(e)
      case Ok(rows) =>
        if sels[n].column !in f.columns then Err(MissingColumn(sels[n].column))
        else Ok(KeepIf(rows, Position(f.columns, sels[n].column), sels[n].value))
  }

  /** `subset` (plot_hplc_calibration.py:39-47), the table reassigned once per selector. */
  method SubsetRows(f: Frame, sels: seq<Selector>) returns (r: Result<seq<seq<Cell>>, SubsetFailure>)
    ensures r == Subset(f, sels)
  {
    var rows := f.rows;
    for i := 0 to |sels|
      invariant Subset(f, sels[..i]) == Ok(rows)
    {
      assert sels[..i + 1][..i] == sels[..i];
      var col := sels[i].column;
      if col !in f.columns {
        SubsetFailureSticks(f, sels, i + 1);
        return Err(MissingColumn(col));
      }
      rows := KeepIf(rows, Position(f.columns, col), sels[i].value);
    }
    assert sels[..|sels|] == sels;
    return Ok(rows);
  }

  lemma {:induction false} SubsetFailureSticks(f: Frame, sels: seq<Selector>, j: nat)
    requires j <= |sels| && Subset(f, sels[..j]).Err?
    ensures Subset(f, sels) == Subset(f, sels[..j])
    decreases |sels| - j
  {
    if j < |sels| {
      assert sels[..j + 1][..j] == sels[..j];
      SubsetFailureSticks(f, sels, j + 1);
    } else {
      assert sels[..j] == sels;
    }
  }

  // Properties of the selection.

  /** Every selector names a column of the table. */
  predicate Known(f: Frame, sels: seq<Selector>)
  {
    forall j | 0 <= j < |sels| :: sels[j].column in f.columns
  }

  /** A row satisfies every selector: its cell in each selector's column is that exact text. */
  predicate Matches(f: Frame, row: seq<Cell>, sels: seq<Selector>)
    requires Known(f, sels)
  {
    forall j | 0 <= j < |sels| :: Holds(row, Position(f.columns, sels[j].column), sels[j].value)
  }

  /** The rows of the table satisfying every selector, in one pass. */
  function Matching(f: Frame, sels: seq<Selector>, m: nat): seq<seq<Cell>>
    requires m <= |f.rows| && Known(f, sels)
  {
    if m == 0 then []
    else Matching(f, sels, m - 1) + (if Matches(f, f.rows[m - 1], sels) then [f.rows[m - 1]] else [])
  }

  /** Matching one more selector is matching the others and that one. */
  lemma MatchesSnoc(f: Frame, row: seq<Cell>, sels: seq<Selector>, s: Selector)
    requires Known(f, sels) && s.column in f.columns
    ensures Known(f, sels + [s])
    ensures Matches(f, row, sels + [s]) <==>
      Matches(f, row, sels) && Holds(row, Position(f.columns, s.column), s.value)
  {
    var all := sels + [s];
    assert forall j | 0 <= j < |sels| :: all[j] == sels[j];
    assert all[|sels|] == s;
  }

  /** Filtering the one-pass result by one more selector is the one-pass result for all of them. */
  lemma {:induction false} KeepIfMatching(f: Frame, sels: seq<Selector>, s: Selector, m: nat)
    requires m <= |f.rows| && Known(f, sels) && s.column in f.columns
    ensures Known(f, sels + [s])
    ensures KeepIf(Matching(f, sels, m), Position(f.columns, s.column), s.value) == Matching(f, sels + [s], m)
  {
    MatchesSnoc(f, [], sels, s);
    if m > 0 {
      var row := f.rows[m - 1];
      var c := Position(f.columns, s.column);
      KeepIfMatching(f, sels, s, m - 1);
      MatchesSnoc(f, row, sels, s);
      var prev := Matching(f, sels, m - 1);
      if Matches(f, row, sels) {
        assert Matching(f, sels, m) == prev + [row];
        assert (prev + [row])[..|prev|] == prev;
      } else {
        assert Matching(f, sels, m) == prev;
      }
    }
  }

  /**
   * Selection fails exactly when some selector names a missing column;
   * otherwise it keeps, in table order, exactly the rows whose cells equal
   * every selector's value.
   */
  lemma {:induction false} SubsetExact(f: Frame, sels: seq<Selector>)
    ensures Subset(f, sels).Ok? <==> Known(f, sels)
    ensures Subset(f, sels).Ok? ==> Subset(f, sels).value == Matching(f, sels, |f.rows|)
  {
    if sels == [] {
      MatchingAll(f, |f.rows|);
      assert f.rows[..|f.rows|] == f.rows;
    } else {
      var n := |sels| - 1;
      SubsetExact(f, sels[..n]);
      assert forall j | 0 <= j < n :: sels[..n][j] == sels[j];
      assert sels == sels[..n] + [sels[n]];
      if Subset(f, sels[..n]).Ok? && sels[n].column in f.columns {
        KeepIfMatching(f, sels[..n], sels[n], |f.rows|);
      }
    }
  }

  /** With no selector, every row is kept. */
  lemma {:induction false} MatchingAll(f: Frame, m: nat)
    requires m <= |f.rows|
    ensures Matching(f, [], m) == f.rows[..m]
  {
    if m > 0 {
      MatchingAll(f, m - 1);
      assert f.rows[..m] == f.rows[..m - 1] + [f.rows[m - 1]];
    }
  }

  /** A kept row is a row of the table matching every selector, and every such row is kept. */
  lemma {:induction false} MatchingMembers(f: Frame, sels: seq<Selector>, m: nat, row: seq<Cell>)
    requires m <= |f.rows| && Known(f, sels)
    ensures row in Matching(f, sels, m) <==> row in f.rows[..m] && Matches(f, row, sels)
  {
    if m > 0 {
      MatchingMembers(f, sels, m - 1, row);
      assert f.rows[..m] == f.rows[..m - 1] + [f.rows[m - 1]];
    }
  }

  // Grid size (plot_hplc_calibration.py:80-87).

  /** `n / wide` with `wide == 0`. */
  datatype GridFailure = ZeroDivision

  function Mul(a: nat, b: nat): nat
  {
    a * b
  }

  /** `math.ceil(n / w)` for positive `w`. */
  function CeilDiv(n: nat, w: nat): (q: nat)
    requires w > 0
    ensures Mul(q, w) >= n
    ensures q == 0 || Mul(q - 1, w) < n
  {
    var q := (n + w - 1) / w;
    assert n + w - 1 == q * w + (n + w - 1) % w;
    assert Mul(q, w) == q * w;
    assert q == 0 || Mul(q - 1, w) == q * w - w;
    q
  }

  /** The least `w` with `w * w >= n`, searched upwards from `w`. */
  function CeilSqrtFrom(n: nat, w: nat): (r: nat)
    requires w == 0 || Mul(w - 1, w - 1) < n
    ensures Mul(r, r) >= n
    ensures r == 0 || Mul(r - 1, r - 1) < n
    decreases n - w
  {
    if Mul(w, w) >= n then w
    else CeilSqrtFrom(n, w + 1)
  }

  /** `math.ceil(math.sqrt(n))`, on exact integers. */
  function CeilSqrt(n: nat): (r: nat)
    ensures Mul(r, r) >= n
    ensures r == 0 || Mul(r - 1, r - 1) < n
  {
    CeilSqrtFrom(n, 0)
  }

  /** `grid_dims(n, dim_max)`: (wide, high); a zero `dim_max` is falsy and behaves as none. */
  function GridDims(n: nat, dimMax: Option<nat>): Result<(nat, nat), GridFailure>
  {
    var wide := if dimMax.Some? && dimMax.value != 0 then Min(n, dimMax.value) else CeilSqrt(n);
    if wide == 0 then Err(ZeroDivision) else Ok((wide, CeilDiv(n, wide)))
  }

  // Properties of the grid.

  /** Only an empty set of plots fails, by dividing by zero in both branches. */
  lemma GridFailsOnlyWhenEmpty(n: nat, dimMax: Option<nat>)
    ensures GridDims(n, dimMax).Err? <==> n == 0
  {
    if n > 0 && !(dimMax.Some? && dimMax.value != 0) {
      assert Mul(0, 0) == 0;
    }
  }

  /** The grid holds every plot and has no spare row. */
  lemma GridFits(n: nat, dimMax: Option<nat>)
    requires GridDims(n, dimMax).Ok?
    ensures var (wide, high) := GridDims(n, dimMax).value;
      Mul(wide, high) >= n && Mul(high - 1, wide) < n
  {
    var (wide, high) := GridDims(n, dimMax).value;
    assert Mul(wide, high) == Mul(high, wide);
  }

  /** With a (non-zero) `dim_max`, the grid is `min(n, dim_max)` wide, so never wider than `dim_max`. */
  lemma GridBoundedWidth(n: nat, d: nat)
    requires d > 0 && n > 0
    ensures GridDims(n, Some(d)).Ok?
    ensures GridDims(n, Some(d)).value.0 == Min(n, d) <= d
  {
  }

  /** Without `dim_max`, the grid is about square: `wide` is the ceiling square root and `high <= wide`. */
  lemma GridSquare(n: nat)
    requires n > 0
    ensures GridDims(n, None).Ok?
    ensures var (wide, high) := GridDims(n, None).value;
      Mul(wide, wide) >= n && Mul(wide - 1, wide - 1) < n && high <= wide
  {
    var wide := CeilSqrt(n);
    assert wide > 0 by {
      assert Mul(0, 0) == 0;
    }
    var high := CeilDiv(n, wide);
    if high > wide {
      assert Mul(high - 1, wide) >= Mul(wide, wide) by {
        MulMonotone(wide, high - 1, wide);
      }
    }
  }

  lemma MulMonotone(a: nat, b: nat, c: nat)
    requires a <= b
    ensures Mul(a, c) <= Mul(b, c)
  {
  }
}
