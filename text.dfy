/**
 * The Python string operations the scripts rely on, over `seq<char>`:
 * `str.split(sep)`, `str.split()`, `str.strip(chars)`, `sep.join(parts)`,
 * `str.lower()` and `str(int)`.
 */
module Text {

  /**
   * The characters `str.split()`, `str.strip()` and the regular expression
   * class `\s` treat as whitespace, restricted to the first 256 code points.
   */
  const Spaces: set<char> := {
    ' ', '\t', '\n', '\r', '\U{0B}', '\U{0C}',
    '\U{1C}', '\U{1D}', '\U{1E}', '\U{1F}', '\U{85}', '\U{A0}'
  }

  predicate IsSpace(c: char) { c in Spaces }

  predicate NoSpace(t: string)
  {
    forall k | 0 <= k < |t| :: !IsSpace(t[k])
  }

  /** The position of the first `c` in `s`. */
  function IndexOf(s: string, c: char): (i: nat)
    requires c in s
    ensures i < |s| && s[i] == c && c !in s[..i]
  {
    if s[0] == c then 0
    else
      var j := IndexOf(s[1..], c);
      assert s[..j + 1] == [s[0]] + s[1..][..j];
      j + 1
  }

  lemma IndexOfUnique(s: string, c: char, i: nat)
    requires i < |s| && s[i] == c && c !in s[..i]
    ensures c in s && IndexOf(s, c) == i
  {
    var j := IndexOf(s, c);
    assert forall k | 0 <= k < i :: s[k] == s[..i][k] && s[k] != c;
    assert forall k | 0 <= k < j :: s[k] == s[..j][k] && s[k] != c;
  }

  /** `sep.join(parts)` for a one-character separator. */
  function Join(parts: seq<string>, sep: char): string
  {
    if |parts| == 0 then ""
    else if |parts| == 1 then parts[0]
    else parts[0] + [sep] + Join(parts[1..], sep)
  }

  /**
   * `s.split(sep)` for a one-character separator: one more piece than there
   * are separators, no piece contains the separator, and joining the pieces
   * back gives `s`.
   */
  function Split(s: string, sep: char): (r: seq<string>)
    ensures |r| == Count(s, sep) + 1
    ensures forall i | 0 <= i < |r| :: sep !in r[i]
    ensures Join(r, sep) == s
    decreases |s|
  {
    if sep !in s then
      CountAbsent(s, sep);
      [s]
    else
      var i := IndexOf(s, sep);
      var rest := Split(s[i + 1..], sep);
      SplitStep(s, sep, i, rest);
      [s[..i]] + rest
  }

  /** The first piece, up to the first separator, in front of the pieces of the remainder. */
  lemma SplitStep(s: string, sep: char, i: nat, rest: seq<string>)
    requires i < |s| && s[i] == sep && sep !in s[..i]
    requires |rest| == Count(s[i + 1..], sep) + 1
    requires forall k | 0 <= k < |rest| :: sep !in rest[k]
    requires Join(rest, sep) == s[i + 1..]
    ensures |[s[..i]] + rest| == Count(s, sep) + 1
    ensures forall k | 0 <= k < |[s[..i]] + rest| :: sep !in ([s[..i]] + rest)[k]
    ensures Join([s[..i]] + rest, sep) == s
  {
    var r := [s[..i]] + rest;
    assert s == s[..i] + ([sep] + s[i + 1..]);
    CountConcat(s[..i], [sep] + s[i + 1..], sep);
    CountAbsent(s[..i], sep);
    assert ([sep] + s[i + 1..])[1..] == s[i + 1..];
    assert r[1..] == rest;
    assert forall k | 1 <= k < |r| :: r[k] == rest[k - 1];
  }

  /** `s.count(c)` for a single character. */
  function Count(s: string, c: char): nat
  {
    if s == [] then 0 else (if s[0] == c then 1 else 0) + Count(s[1..], c)
  }

  lemma {:induction false} CountAbsent(s: string, c: char)
    requires c !in s
    ensures Count(s, c) == 0
  {
    if s != [] {
      assert c !in s[1..];
      CountAbsent(s[1..], c);
    }
  }

  lemma {:induction false} CountConcat(a: string, b: string, c: char)
    ensures Count(a + b, c) == Count(a, c) + Count(b, c)
  {
    if a != [] {
      assert (a + b)[0] == a[0] && (a + b)[1..] == a[1..] + b;
      CountConcat(a[1..], b, c);
    } else {
      assert a + b == b;
    }
  }

  /** The converse round trip: splitting a join gives the parts back. */
  lemma {:induction false} SplitJoin(parts: seq<string>, sep: char)
    requires |parts| >= 1
    requires forall i | 0 <= i < |parts| :: sep !in parts[i]
    ensures Split(Join(parts, sep), sep) == parts
  {
    if |parts| > 1 {
      var p := parts[0];
      var rest := Join(parts[1..], sep);
      var s := Join(parts, sep);
      assert s == p + [sep] + rest;
      assert s[..|p|] == p;
      IndexOfUnique(s, sep, |p|);
      assert s[|p| + 1..] == rest;
      SplitJoin(parts[1..], sep);
    }
  }

  /** A join of non-empty parts starts with the first part's first character and ends with the last part's last one. */
  lemma {:induction false} JoinEnds(parts: seq<string>, sep: char)
    requires |parts| >= 1 && forall k | 0 <= k < |parts| :: parts[k] != ""
    ensures Join(parts, sep) != []
    ensures Join(parts, sep)[0] == parts[0][0]
    ensures Join(parts, sep)[|Join(parts, sep)| - 1] == parts[|parts| - 1][|parts[|parts| - 1]| - 1]
  {
    if |parts| > 1 {
      assert forall k | 0 <= k < |parts[1..]| :: parts[1..][k] == parts[k + 1];
      JoinEnds(parts[1..], sep);
      assert Join(parts, sep) == parts[0] + [sep] + Join(parts[1..], sep);
    }
  }

  /** Two separator-free fields joined by one separator split back into them. */
  lemma SplitPair(a: string, b: string, sep: char)
    requires sep !in a && sep !in b
    ensures Split(a + [sep] + b, sep) == [a, b]
  {
    assert Join([a, b], sep) == a + [sep] + b;
    SplitJoin([a, b], sep);
  }

  /** Length of the maximal run of non-whitespace characters at the front of `s`. */
  function TokenLength(s: string): (n: nat)
    ensures n <= |s|
    ensures NoSpace(s[..n])
    ensures n == |s| || IsSpace(s[n])
  {
    if s == [] || IsSpace(s[0]) then 0
    else
      var m := TokenLength(s[1..]);
      assert s[..m + 1] == [s[0]] + s[1..][..m];
      m + 1
  }

  lemma TokenLengthUnique(s: string, n: nat)
    requires n <= |s| && NoSpace(s[..n]) && (n == |s| || IsSpace(s[n]))
    ensures TokenLength(s) == n
  {
    var m := TokenLength(s);
    assert forall k | 0 <= k < n :: s[k] == s[..n][k] && !IsSpace(s[k]);
    assert forall k | 0 <= k < m :: s[k] == s[..m][k] && !IsSpace(s[k]);
  }

  /** `s.split()`: the maximal runs of non-whitespace, in order. */
  function SplitWs(s: string): (r: seq<string>)
    ensures forall i | 0 <= i < |r| :: r[i] != "" && NoSpace(r[i])
    decreases |s|
  {
    if s == [] then []
    else if IsSpace(s[0]) then SplitWs(s[1..])
    else
      var n := TokenLength(s);
      [s[..n]] + SplitWs(s[n..])
  }

  /** Words joined by single spaces split back into the same words. */
  lemma {:induction false} SplitWsJoin(words: seq<string>)
    requires forall i | 0 <= i < |words| :: words[i] != "" && NoSpace(words[i])
    ensures SplitWs(Join(words, ' ')) == words
  {
    if |words| == 1 {
      var w := words[0];
      TokenLengthUnique(w, |w|);
      assert w[..|w|] == w && w[|w|..] == [];
    } else if |words| > 1 {
      var w := words[0];
      var rest := Join(words[1..], ' ');
      var s := Join(words, ' ');
      assert s == w + [' '] + rest;
      assert s[..|w|] == w;
      TokenLengthUnique(s, |w|);
      assert s[|w|..] == [' '] + rest;
      assert s[|w|..][1..] == rest;
      SplitWsJoin(words[1..]);
    }
  }

  /** A run of whitespace, possibly empty. */
  predicate AllSpace(t: string)
  {
    forall k | 0 <= k < |t| :: IsSpace(t[k])
  }

  /** The whitespace runs around and between `n` words: the inner ones are non-empty. */
  predicate Separators(gaps: seq<string>, n: nat)
  {
    && |gaps| == n + 1
    && (forall i | 0 <= i < |gaps| :: AllSpace(gaps[i]))
    && (forall i | 0 < i < n :: gaps[i] != "")
  }

  /** gaps[0] + words[0] + gaps[1] + … + words[n - 1] + gaps[n]. */
  function Weave(gaps: seq<string>, words: seq<string>): string
    requires |gaps| == |words| + 1
  {
    if words == [] then gaps[0] else gaps[0] + words[0] + Weave(gaps[1..], words[1..])
  }

  /** The whitespace runs of `s` around and between its `split()` tokens. */
  function Gaps(s: string): (g: seq<string>)
    ensures g != []
    ensures s != [] && IsSpace(s[0]) ==> g[0] != ""
    decreases |s|
  {
    if s == [] then [""]
    else if IsSpace(s[0]) then
      var g := Gaps(s[1..]);
      [[s[0]] + g[0]] + g[1..]
    else [""] + Gaps(s[TokenLength(s)..])
  }

  /**
   * The tokens of `s.split()` cover `s`: `s` is its tokens woven with
   * whitespace runs, non-empty between two tokens.
   */
  lemma {:induction false} SplitWsCovers(s: string)
    ensures Separators(Gaps(s), |SplitWs(s)|)
    ensures s == Weave(Gaps(s), SplitWs(s))
    decreases |s|
  {
    if s != [] {
      if IsSpace(s[0]) {
        SplitWsCovers(s[1..]);
        CoverSpaceStep(s[0], s[1..], Gaps(s[1..]), SplitWs(s[1..]));
        assert s == [s[0]] + s[1..];
      } else {
        var n := TokenLength(s);
        var t := s[n..];
        SplitWsCovers(t);
        CoverTokenStep(s[..n], t, Gaps(t), SplitWs(t));
        assert s == s[..n] + t;
      }
    }
  }

  /** A whitespace character in front joins the first run. */
  lemma CoverSpaceStep(c: char, t: string, g: seq<string>, words: seq<string>)
    requires IsSpace(c) && Separators(g, |words|) && t == Weave(g, words)
    ensures Separators([[c] + g[0]] + g[1..], |words|)
    ensures [c] + t == Weave([[c] + g[0]] + g[1..], words)
  {
    SpaceRunGrows(c, g, |words|);
    WeaveFrontGrows(c, g, words);
  }

  lemma SpaceRunGrows(c: char, g: seq<string>, n: nat)
    requires IsSpace(c) && Separators(g, n)
    ensures Separators([[c] + g[0]] + g[1..], n)
  {
    var g' := [[c] + g[0]] + g[1..];
    assert forall i | 0 < i < |g'| :: g'[i] == g[i];
    forall k | 0 <= k < |g'[0]| ensures IsSpace(g'[0][k]) {
      if k > 0 {
        assert g'[0][k] == g[0][k - 1];
      }
    }
  }

  lemma WeaveFrontGrows(c: char, g: seq<string>, words: seq<string>)
    requires |g| == |words| + 1
    ensures [c] + Weave(g, words) == Weave([[c] + g[0]] + g[1..], words)
  {
    var g' := [[c] + g[0]] + g[1..];
    assert g'[1..] == g[1..];
    if words != [] {
      assert [c] + (g[0] + words[0] + Weave(g[1..], words[1..])) == ([c] + g[0]) + words[0] + Weave(g[1..], words[1..]);
    }
  }

  /** A token in front opens with an empty run, and the run after it is non-empty if a token follows. */
  lemma CoverTokenStep(w: string, t: string, g: seq<string>, words: seq<string>)
    requires Separators(g, |words|) && t == Weave(g, words)
    requires words != [] ==> g[0] != ""
    ensures Separators([""] + g, |words| + 1)
    ensures w + t == Weave([""] + g, [w] + words)
  {
    var g' := [""] + g;
    assert g'[1..] == g;
    assert ([w] + words)[1..] == words;
    EmptyRunInFront(g, |words|);
  }

  lemma EmptyRunInFront(g: seq<string>, n: nat)
    requires Separators(g, n) && (n > 0 ==> g[0] != "")
    ensures Separators([""] + g, n + 1)
  {
    var g' := [""] + g;
    forall i | 0 <= i < |g'| ensures AllSpace(g'[i]) {
      if i > 0 {
        assert g'[i] == g[i - 1];
      }
    }
    forall i | 0 < i < n + 1 ensures g'[i] != "" {
      assert g'[i] == g[i - 1];
    }
  }

  /** Leading whitespace is skipped by `split()`. */
  lemma {:induction false} SplitWsSkips(g: string, t: string)
    requires AllSpace(g)
    ensures SplitWs(g + t) == SplitWs(t)
  {
    if g != [] {
      assert (g + t)[0] == g[0] && (g + t)[1..] == g[1..] + t;
      SplitWsSkips(g[1..], t);
    } else {
      assert g + t == t;
    }
  }

  /**
   * Words woven with whitespace runs, non-empty between two words, split back
   * into the same words: `split()` yields exactly the maximal non-whitespace
   * runs, in order.
   */
  lemma {:induction false} SplitWsWeave(gaps: seq<string>, words: seq<string>)
    requires Separators(gaps, |words|)
    requires forall i | 0 <= i < |words| :: words[i] != "" && NoSpace(words[i])
    ensures SplitWs(Weave(gaps, words)) == words
  {
    if words == [] {
      SplitWsSkips(gaps[0], "");
      assert gaps[0] + "" == gaps[0];
    } else {
      var w := words[0];
      var rest := Weave(gaps[1..], words[1..]);
      assert Separators(gaps[1..], |words| - 1) by {
        forall i | 0 < i < |words| - 1 ensures gaps[1..][i] != "" {
          assert gaps[1..][i] == gaps[i + 1];
        }
      }
      assert forall i | 0 <= i < |words[1..]| :: words[1..][i] == words[i + 1];
      SplitWsWeave(gaps[1..], words[1..]);
      assert rest == [] || IsSpace(rest[0]) by {
        if |words| > 1 {
          assert gaps[1] != "" && rest == gaps[1] + words[1] + Weave(gaps[2..], words[2..]);
        } else {
          assert rest == gaps[1];
        }
      }
      assert Weave(gaps, words) == gaps[0] + (w + rest);
      SplitWsSkips(gaps[0], w + rest);
      var s := w + rest;
      assert s[..|w|] == w;
      TokenLengthUnique(s, |w|);
      assert s[|w|..] == rest;
    }
  }

  /** Number of leading characters of `s` that belong to `cs`. */
  function LeadingIn(s: string, cs: set<char>): (k: nat)
    ensures k <= |s|
    ensures forall j | 0 <= j < k :: s[j] in cs
    ensures k < |s| ==> s[k] !in cs
  {
    if s == [] || s[0] !in cs then 0 else LeadingIn(s[1..], cs) + 1
  }

  /** Number of trailing characters of `s` that belong to `cs`. */
  function TrailingIn(s: string, cs: set<char>): (k: nat)
    ensures k <= |s|
    ensures forall j | |s| - k <= j < |s| :: s[j] in cs
    ensures k < |s| ==> s[|s| - 1 - k] !in cs
  {
    if s == [] || s[|s| - 1] !in cs then 0 else TrailingIn(s[..|s| - 1], cs) + 1
  }

  /**
   * `s.strip(chars)`: the middle slice `s[a..b]` that starts and ends outside
   * `cs`, with everything cut off on either side inside `cs`.
   */
  function StripBounds(s: string, cs: set<char>): (b: (nat, nat))
    ensures b.0 <= b.1 <= |s|
    ensures forall j | 0 <= j < b.0 :: s[j] in cs
    ensures forall j | b.1 <= j < |s| :: s[j] in cs
    ensures b.0 < b.1 ==> s[b.0] !in cs && s[b.1 - 1] !in cs
  {
    var a := LeadingIn(s, cs);
    var t := TrailingIn(s[a..], cs);
    TrailingOfRest(s, cs, a, t);
    (a, |s| - t)
  }

  /** What the trailing count of `s[a..]` says about `s` itself. */
  lemma TrailingOfRest(s: string, cs: set<char>, a: nat, t: nat)
    requires a <= |s| && t == TrailingIn(s[a..], cs)
    ensures a + t <= |s|
    ensures forall j | |s| - t <= j < |s| :: s[j] in cs
    ensures t < |s| - a ==> s[|s| - 1 - t] !in cs
  {
    var rest := s[a..];
    assert forall j | |s| - t <= j < |s| :: s[j] == rest[j - a];
    if t < |rest| {
      assert s[|s| - 1 - t] == rest[|rest| - 1 - t];
    }
  }

  function StripChars(s: string, cs: set<char>): string
  {
    var b := StripBounds(s, cs);
    s[b.0..b.1]
  }

  /** `s.strip()`. */
  function Strip(s: string): string
  {
    StripChars(s, Spaces)
  }

  /**
   * Stripping removes exactly a surrounding padding drawn from `cs` when the
   * middle part starts and ends outside `cs`.
   */
  lemma StripCharsPadded(pre: string, mid: string, post: string, cs: set<char>)
    requires forall j | 0 <= j < |pre| :: pre[j] in cs
    requires forall j | 0 <= j < |post| :: post[j] in cs
    requires mid != [] && mid[0] !in cs && mid[|mid| - 1] !in cs
    ensures StripChars(pre + mid + post, cs) == mid
  {
    var s := pre + mid + post;
    var b := StripBounds(s, cs);
    assert s[|pre|] == mid[0];
    assert s[|pre| + |mid| - 1] == mid[|mid| - 1];
    assert forall j | 0 <= j < |pre| :: s[j] == pre[j];
    assert forall j | |pre| + |mid| <= j < |s| :: s[j] == post[j - |pre| - |mid|];
    assert b.0 == |pre|;
    assert b.1 == |pre| + |mid|;
    assert s[b.0..b.1] == mid;
  }

  /** `s.startswith(p)`. */
  predicate StartsWith(s: string, p: string)
  {
    |p| <= |s| && s[..|p|] == p
  }

  /** A string that starts with `q` starts with every prefix of `q`. */
  lemma StartsWithPrefix(s: string, q: string, p: string)
    requires StartsWith(s, q) && StartsWith(q, p)
    ensures StartsWith(s, p)
  {
    assert s[..|p|] == s[..|q|][..|p|];
  }

  /** Stripping never introduces a character. */
  lemma StripKeepsOut(s: string, c: char)
    requires c !in s
    ensures c !in Strip(s)
  {
  }

  function LowerChar(c: char): char
  {
    if 'A' <= c <= 'Z' then (c as int + 32) as char else c
  }

  predicate IsUpper(c: char)
  {
    'A' <= c <= 'Z'
  }

  /**
   * `s.lower()` on ASCII letters: no upper-case letter is left, each one
   * becomes its lower-case letter, and every other character is kept.
   */
  function Lower(s: string): (r: string)
    ensures |r| == |s|
    ensures forall i | 0 <= i < |r| :: !IsUpper(r[i])
    ensures forall i | 0 <= i < |s| :: !IsUpper(s[i]) ==> r[i] == s[i]
    ensures forall i | 0 <= i < |s| :: IsUpper(s[i]) ==>
      'a' <= r[i] <= 'z' && r[i] as int - 'a' as int == s[i] as int - 'A' as int
  {
    seq(|s|, i requires 0 <= i < |s| => LowerChar(s[i]))
  }

  /** Lower-casing twice is lower-casing once. */
  lemma LowerIdempotent(s: string)
    ensures Lower(Lower(s)) == Lower(s)
  {
  }

  function DigitChar(d: nat): char
    requires d < 10
  {
    ['0', '1', '2', '3', '4', '5', '6', '7', '8', '9'][d]
  }

  /** `str(n)` for a non-negative integer. */
  function NatToDecimal(n: nat): (r: string)
    ensures r != ""
    ensures forall i | 0 <= i < |r| :: '0' <= r[i] <= '9'
  {
    if n < 10 then [DigitChar(n)] else NatToDecimal(n / 10) + [DigitChar(n % 10)]
  }

  /** `str(n)` for any integer. */
  function IntToDecimal(n: int): (r: string)
    ensures r != ""
  {
    if n < 0 then "-" + NatToDecimal(-n) else NatToDecimal(n)
  }

  function Min(a: nat, b: nat): nat
  {
    if a <= b then a else b
  }

  /** The index of the first column called `name`. */
  function Position(columns: seq<string>, name: string): (i: nat)
    requires name in columns
    ensures i < |columns| && columns[i] == name
  {
    if columns[0] == name then 0 else 1 + Position(columns[1..], name)
  }
}
