/**
  String operations of Python's `str` that the server code relies on, written
  out over `seq<char>`: substring search, `lower`, `strip`, `split`, `join`,
  `replace`, slicing and integer formatting.
 */
module Text {
  import opened Wrappers

  /** `pat` occurs in `s` at index `i`. */
  predicate OccursAt(s: string, pat: string, i: int) {
    0 <= i && i + |pat| <= |s| && s[i..i + |pat|] == pat
  }

  /** Python's `pat in s`. */
  predicate Contains(s: string, pat: string) {
    exists i :: 0 <= i <= |s| - |pat| && OccursAt(s, pat, i)
  }

  /** Python's `s.startswith(p)`. */
  predicate StartsWith(s: string, p: string) {
    |p| <= |s| && s[..|p|] == p
  }

  /** An occurrence in a suffix is an occurrence in the whole string, shifted. */
  lemma OccursInSuffix(s: string, pat: string, k: nat, j: int)
    requires k <= |s| && k <= j
    ensures OccursAt(s[k..], pat, j - k) <==> OccursAt(s, pat, j)
  {
    if j + |pat| <= |s| {
      assert s[k..][j - k..j - k + |pat|] == s[j..j + |pat|];
    }
  }

  /** An occurrence that ends within a prefix is an occurrence in the prefix. */
  lemma OccursInPrefix(s: string, pat: string, m: nat, j: int)
    requires m <= |s| && j + |pat| <= m
    ensures OccursAt(s[..m], pat, j) <==> OccursAt(s, pat, j)
  {
    if 0 <= j {
      assert s[..m][j..j + |pat|] == s[j..j + |pat|];
    }
  }

  /** A string is its three parts around an occurrence. */
  lemma AroundOccurrence(s: string, pat: string, i: nat)
    requires OccursAt(s, pat, i)
    ensures s == s[..i] + pat + s[i + |pat|..]
  {
    assert s == s[..i] + s[i..i + |pat|] + s[i + |pat|..];
  }

  /** The index of the first occurrence of `pat` in `s`, as `str.find` finds it. */
  function IndexOf(s: string, pat: string): (r: Option<nat>)
    ensures r.Some? ==> OccursAt(s, pat, r.value)
    ensures r.Some? ==> forall j :: 0 <= j < r.value ==> !OccursAt(s, pat, j)
    ensures r.None? ==> !Contains(s, pat)
  {
    IndexFrom(s, pat, 0)
  }

  /** The first occurrence of `pat` in `s` at or after `start`. */
  function IndexFrom(s: string, pat: string, start: nat): (r: Option<nat>)
    ensures r.Some? ==> start <= r.value && OccursAt(s, pat, r.value)
    ensures r.Some? ==> forall j :: start <= j < r.value ==> !OccursAt(s, pat, j)
    ensures r.None? ==> forall j :: start <= j ==> !OccursAt(s, pat, j)
    decreases |s| - start
  {
    if start + |pat| > |s| then None
    else if OccursAt(s, pat, start) then Some(start)
    else IndexFrom(s, pat, start + 1)
  }

  /** Python's `s.split(sep, maxsplit)`: at most `maxsplit` cuts, each at the
      leftmost occurrence of `sep` in what is left. */
  function SplitOn(s: string, sep: string, maxsplit: nat): (r: seq<string>)
    requires sep != []
    ensures 1 <= |r| <= maxsplit + 1
    decreases maxsplit
  {
    if maxsplit == 0 then [s]
    else
      match IndexOf(s, sep)
      case None => [s]
      case Some(i) => [s[..i]] + SplitOn(s[i + |sep|..], sep, maxsplit - 1)
  }

  /** Joining the pieces with the separator gives back the string. */
  lemma {:induction false} SplitOnJoin(s: string, sep: string, maxsplit: nat)
    requires sep != []
    ensures Join(SplitOn(s, sep, maxsplit), sep) == s
    decreases maxsplit
  {
    var r := IndexOf(s, sep);
    if maxsplit == 0 || r.None? {
      SplitOnWhole(s, sep, maxsplit);
    } else {
      var i := r.value;
      assert OccursAt(s, sep, i);
      SplitOnJoin(s[i + |sep|..], sep, maxsplit - 1);
      SplitOnJoinStep(s, sep, maxsplit, i);
    }
  }

  lemma SplitOnWhole(s: string, sep: string, maxsplit: nat)
    requires sep != [] && (maxsplit == 0 || IndexOf(s, sep).None?)
    ensures SplitOn(s, sep, maxsplit) == [s] && Join([s], sep) == s
  {
  }

  lemma SplitOnJoinStep(s: string, sep: string, maxsplit: nat, i: nat)
    requires sep != [] && maxsplit > 0 && IndexOf(s, sep) == Some(i) && i + |sep| <= |s|
    requires Join(SplitOn(s[i + |sep|..], sep, maxsplit - 1), sep) == s[i + |sep|..]
    ensures Join(SplitOn(s, sep, maxsplit), sep) == s
  {
    var r := SplitOn(s[i + |sep|..], sep, maxsplit - 1);
    SplitOnStep(s, sep, maxsplit, i);
    JoinCons(s[..i], r, sep);
    AroundOccurrence(s, sep, i);
  }

  lemma SplitOnStep(s: string, sep: string, maxsplit: nat, i: nat)
    requires sep != [] && maxsplit > 0 && IndexOf(s, sep) == Some(i)
    ensures SplitOn(s, sep, maxsplit) == [s[..i]] + SplitOn(s[i + |sep|..], sep, maxsplit - 1)
  {
  }

  /** Three pieces joined are the pieces with the separator twice between. */
  lemma JoinThree(xs: seq<string>, sep: string)
    requires |xs| == 3
    ensures Join(xs, sep) == xs[0] + sep + xs[1] + sep + xs[2]
  {
    assert xs[1..][1..] == [xs[2]];
    assert Join(xs[1..], sep) == xs[1] + sep + xs[2];
  }

  lemma JoinCons(x: string, r: seq<string>, sep: string)
    requires r != []
    ensures Join([x] + r, sep) == x + sep + Join(r, sep)
  {
    assert ([x] + r)[1..] == r;
  }

  /** Every piece but the last is free of the separator. */
  lemma {:induction false} SplitOnPieces(s: string, sep: string, maxsplit: nat)
    requires sep != []
    ensures forall k :: 0 <= k < |SplitOn(s, sep, maxsplit)| - 1 ==> !Contains(SplitOn(s, sep, maxsplit)[k], sep)
    decreases maxsplit
  {
    if maxsplit > 0 {
      match IndexOf(s, sep)
      case None =>
      case Some(i) =>
        var rest := s[i + |sep|..];
        SplitOnPieces(rest, sep, maxsplit - 1);
        forall m | 0 <= m <= i - |sep| ensures !OccursAt(s[..i], sep, m) {
          OccursInPrefix(s, sep, i, m);
        }
    }
  }

  /** `sep` occurs twice in `s` without overlap. */
  ghost predicate OccursTwice(s: string, sep: string) {
    exists i, j :: OccursAt(s, sep, i) && OccursAt(s, sep, j) && i + |sep| <= j
  }

  /** Splitting at most twice gives three pieces exactly when the separator
      occurs twice without overlap. */
  lemma SplitOnTwice(s: string, sep: string)
    requires sep != []
    ensures |SplitOn(s, sep, 2)| == 3 <==> OccursTwice(s, sep)
  {
    var r := IndexOf(s, sep);
    if r.None? {
      SplitOnWhole(s, sep, 2);
      NoSecondOccurrence(s, sep, 0);
    } else {
      SplitOnTwiceFrom(s, sep, r.value);
    }
  }

  lemma SplitOnTwiceFrom(s: string, sep: string, i: nat)
    requires sep != [] && IndexOf(s, sep) == Some(i)
    ensures |SplitOn(s, sep, 2)| == 3 <==> OccursTwice(s, sep)
  {
    var k := i + |sep|;
    var rest := s[k..];
    SplitOnStep(s, sep, 2, i);
    var r2 := IndexOf(rest, sep);
    if r2.None? {
      SplitOnWhole(rest, sep, 1);
      forall j | k <= j ensures !OccursAt(s, sep, j) {
        OccursInSuffix(s, sep, k, j);
      }
      NoSecondOccurrence(s, sep, k);
    } else {
      var j := r2.value;
      SplitOnStep(rest, sep, 1, j);
      SplitOnWhole(rest[j + |sep|..], sep, 0);
      OccursInSuffix(s, sep, k, k + j);
      assert OccursAt(s, sep, i) && OccursAt(s, sep, k + j);
    }
  }

  /** No occurrence that ends after `m`'s first-occurrence cut means no two
      occurrences at all. */
  lemma NoSecondOccurrence(s: string, sep: string, k: nat)
    requires sep != []
    requires k == 0 ==> !Contains(s, sep)
    requires k > 0 ==> IndexOf(s, sep).Some? && k == IndexOf(s, sep).value + |sep|
    requires forall j :: k <= j ==> !OccursAt(s, sep, j)
    ensures !OccursTwice(s, sep)
  {
    forall a, b | OccursAt(s, sep, a) && a + |sep| <= b ensures !OccursAt(s, sep, b) {
      if k > 0 {
        assert IndexOf(s, sep).value <= a;
      }
    }
  }


  // ---------------------------------------------------------------- lower

  /** `str.lower` on one character; only A-Z have a lower-case form here. */
  function LowerChar(c: char): char {
    if 'A' <= c <= 'Z' then (c as int + 32) as char else c
  }

  /** Python's `s.lower()`. */
  function Lower(s: string): (r: string)
    ensures |r| == |s|
    ensures forall i :: 0 <= i < |s| ==> r[i] == LowerChar(s[i])
  {
    seq(|s|, i requires 0 <= i < |s| => LowerChar(s[i]))
  }

  lemma LowerIdempotent(s: string)
    ensures Lower(Lower(s)) == Lower(s)
  {
  }

  // ---------------------------------------------------------------- strip

  /** The characters Python's `str.isspace` accepts. */
  predicate IsSpace(c: char) {
    c == ' ' || c == '\t' || c == '\n' || c == '\r' || c == '\U{0B}' || c == '\U{0C}'
    || ('\U{1C}' <= c <= '\U{1F}') || c == '\U{85}' || c == '\U{A0}' || c == '\U{1680}'
    || ('\U{2000}' <= c <= '\U{200A}') || c == '\U{2028}' || c == '\U{2029}'
    || c == '\U{202F}' || c == '\U{205F}' || c == '\U{3000}'
  }

  /** The number of white-space characters `s` starts with. */
  function LeadingSpace(s: string): (n: nat)
    ensures n <= |s|
    ensures forall k {:trigger IsSpace(s[k])} :: 0 <= k < n ==> IsSpace(s[k])
    ensures n < |s| ==> !IsSpace(s[n])
  {
    if s == [] || !IsSpace(s[0]) then 0 else 1 + LeadingSpace(s[1..])
  }

  /** The number of white-space characters `s` ends with. */
  function TrailingSpace(s: string): (n: nat)
    ensures n <= |s|
    ensures forall k {:trigger IsSpace(s[k])} :: |s| - n <= k < |s| ==> IsSpace(s[k])
    ensures n < |s| ==> !IsSpace(s[|s| - n - 1])
  {
    if s == [] || !IsSpace(s[|s| - 1]) then 0 else 1 + TrailingSpace(s[..|s| - 1])
  }

  /** Python's `s.strip()`: without its leading and trailing white space. */
  function Strip(s: string): string {
    var i := LeadingSpace(s);
    if i == |s| then [] else s[i..|s| - TrailingSpace(s)]
  }

  /** What `strip` keeps: a slice of `s` that neither starts nor ends with
      white space, and only white space is cut off either side. */
  lemma StripIsSlice(s: string) returns (i: nat, j: nat)
    ensures i <= j <= |s| && Strip(s) == s[i..j]
    ensures forall k :: 0 <= k < i || j <= k < |s| ==> IsSpace(s[k])
    ensures Strip(s) == [] || (!IsSpace(Strip(s)[0]) && !IsSpace(Strip(s)[|Strip(s)| - 1]))
  {
    i := LeadingSpace(s);
    j := if i == |s| then |s| else |s| - TrailingSpace(s);
  }

  /** A string that neither starts nor ends with white space is its own strip. */
  lemma StripClean(s: string)
    requires s == [] || (!IsSpace(s[0]) && !IsSpace(s[|s| - 1]))
    ensures Strip(s) == s
  {
    assert s[0..|s|] == s;
  }

  /** Stripping does not create characters: whatever `s` lacks, `Strip(s)` lacks. */
  lemma StripSubset(s: string, c: char)
    requires c !in s
    ensures c !in Strip(s)
  {
    var i, j := StripIsSlice(s);
  }

  // ---------------------------------------------------------------- split / join

  /** Python's `s.split(sep)` for a one-character separator. */
  function Split(s: string, sep: char): (r: seq<string>)
    ensures |r| >= 1
    ensures forall k :: 0 <= k < |r| ==> sep !in r[k]
  {
    if s == [] then [[]]
    else if s[0] == sep then [[]] + Split(s[1..], sep)
    else
      var rest := Split(s[1..], sep);
      [[s[0]] + rest[0]] + rest[1..]
  }

  /** `os.path.basename`: the last `/`-separated part of a path. */
  function BaseName(path: string): (r: string)
    ensures '/' !in r
  {
    var parts := Split(path, '/');
    parts[|parts| - 1]
  }

  /** Python's `sep.join(xs)`. */
  function Join(xs: seq<string>, sep: string): string {
    if xs == [] then []
    else if |xs| == 1 then xs[0]
    else xs[0] + sep + Join(xs[1..], sep)
  }

  /** Joining the pieces of a split gives back the string. */
  lemma {:induction false} JoinSplit(s: string, sep: char)
    ensures Join(Split(s, sep), [sep]) == s
  {
    if s == [] {
    } else if s[0] == sep {
      JoinSplit(s[1..], sep);
    } else {
      var rest := Split(s[1..], sep);
      JoinSplit(s[1..], sep);
      if |rest| == 1 {
      } else {
        assert Join(rest, [sep]) == rest[0] + [sep] + Join(rest[1..], [sep]);
        assert [s[0]] + Join(rest, [sep]) == s;
      }
    }
  }

  /** Splitting a join of separator-free pieces gives back the pieces. */
  lemma {:induction false} SplitJoin(xs: seq<string>, sep: char)
    requires |xs| >= 1
    requires forall k :: 0 <= k < |xs| ==> sep !in xs[k]
    ensures Split(Join(xs, [sep]), sep) == xs
  {
    if |xs| == 1 {
      SplitNoSep(xs[0], sep);
    } else {
      SplitJoin(xs[1..], sep);
      SplitAfterWord(xs[0], Join(xs[1..], [sep]), sep);
    }
  }

  lemma {:induction false} SplitNoSep(s: string, sep: char)
    requires sep !in s
    ensures Split(s, sep) == [s]
  {
    if s != [] {
      assert s[0] in s;
      SplitNoSep(s[1..], sep);
      assert [s[0]] + s[1..] == s;
    }
  }

  lemma {:induction false} SplitAfterWord(w: string, rest: string, sep: char)
    requires sep !in w
    ensures Split(w + [sep] + rest, sep) == [w] + Split(rest, sep)
  {
    if w == [] {
      assert w + [sep] + rest == [sep] + rest;
    } else {
      var t := w + [sep] + rest;
      assert w[0] in w;
      assert t[0] == w[0] && t[1..] == w[1..] + [sep] + rest;
      SplitAfterWord(w[1..], rest, sep);
      assert [w[0]] + w[1..] == w;
    }
  }

  /** Joining a concatenation puts one separator between the two joins. */
  lemma {:induction false} JoinAppend(a: seq<string>, b: seq<string>, sep: string)
    requires a != [] && b != []
    ensures Join(a + b, sep) == Join(a, sep) + sep + Join(b, sep)
  {
    if |a| == 1 {
      assert (a + b)[1..] == b;
    } else {
      assert (a + b)[1..] == a[1..] + b;
      JoinAppend(a[1..], b, sep);
    }
  }

  /** A join begins with the first character of its first piece. */
  lemma JoinFirst(xs: seq<string>, sep: string)
    requires xs != [] && xs[0] != []
    ensures Join(xs, sep) != [] && Join(xs, sep)[0] == xs[0][0]
  {
  }

  /** A join ends with the last character of its last piece. */
  lemma {:induction false} JoinLast(xs: seq<string>, sep: string)
    requires xs != [] && xs[|xs| - 1] != []
    ensures Join(xs, sep) != []
    ensures Join(xs, sep)[|Join(xs, sep)| - 1] == xs[|xs| - 1][|xs[|xs| - 1]| - 1]
  {
    if |xs| > 1 {
      JoinLast(xs[1..], sep);
    }
  }

  /** The length of a join is the pieces' lengths plus one separator between each two. */
  lemma {:induction false} JoinLength(xs: seq<string>, sep: string)
    requires xs != []
    ensures |Join(xs, sep)| == TotalLength(xs) + (|xs| - 1) * |sep|
  {
    if |xs| > 1 {
      JoinLength(xs[1..], sep);
    }
  }

  function TotalLength(xs: seq<string>): nat {
    if xs == [] then 0 else |xs[0]| + TotalLength(xs[1..])
  }

  /** The text of a line before its first line break: `s.split('\n')[0]`. */
  function FirstLine(s: string): (r: string)
    ensures StartsWith(s, r) && '\n' !in r
    ensures |r| < |s| ==> s[|r|] == '\n'
  {
    if s == [] || s[0] == '\n' then [] else [s[0]] + FirstLine(s[1..])
  }

  lemma {:induction false} FirstLineIsFirstPiece(s: string)
    ensures FirstLine(s) == Split(s, '\n')[0]
  {
    if s != [] && s[0] != '\n' {
      FirstLineIsFirstPiece(s[1..]);
    }
  }

  /** Python's `s.split()`: the maximal runs of non-white-space characters. */
  function Words(s: string): (r: seq<string>)
    ensures forall k :: 0 <= k < |r| ==> r[k] != [] && forall c :: c in r[k] ==> !IsSpace(c)
    decreases |s|
  {
    if s == [] then []
    else if IsSpace(s[0]) then Words(s[1..])
    else
      var w := WordAt(s);
      [w] + Words(s[|w|..])
  }

  /** The longest prefix of `s` without white space. */
  function WordAt(s: string): (w: string)
    ensures StartsWith(s, w)
    ensures forall c :: c in w ==> !IsSpace(c)
    ensures |w| < |s| ==> IsSpace(s[|w|])
    ensures s != [] && !IsSpace(s[0]) ==> w != []
  {
    if s == [] || IsSpace(s[0]) then [] else [s[0]] + WordAt(s[1..])
  }

  // ---------------------------------------------------------------- replace, slicing

  /** Python's `s.replace(pat, rep)`: every non-overlapping occurrence, left to right. */
  function Replace(s: string, pat: string, rep: string): string
    requires pat != []
    decreases |s|
  {
    if |s| < |pat| then s
    else if s[..|pat|] == pat then rep + Replace(s[|pat|..], pat, rep)
    else [s[0]] + Replace(s[1..], pat, rep)
  }

  /** A string that does not contain `p` contains nothing that starts with `p`. */
  lemma ContainsStart(s: string, p: string, q: string)
    requires StartsWith(q, p) && Contains(s, q)
    ensures Contains(s, p)
  {
    var i :| 0 <= i <= |s| - |q| && OccursAt(s, q, i);
    assert s[i..i + |p|] == q[..|p|];
    assert OccursAt(s, p, i);
  }

  /** A string that does not contain the pattern is left as it is. */
  lemma {:induction false} ReplaceAbsent(s: string, pat: string, rep: string)
    requires pat != [] && !Contains(s, pat)
    ensures Replace(s, pat, rep) == s
  {
    if |s| >= |pat| {
      assert !OccursAt(s, pat, 0);
      assert s[..|pat|] != pat;
      forall i | 0 <= i <= |s[1..]| - |pat| ensures !OccursAt(s[1..], pat, i) {
        assert s[1..][i..i + |pat|] == s[i + 1..i + 1 + |pat|];
        assert !OccursAt(s, pat, i + 1);
      }
      ReplaceAbsent(s[1..], pat, rep);
    }
  }

  /** Replacing passes over a prefix in which no occurrence starts. */
  lemma {:induction false} ReplaceSkip(s: string, pat: string, rep: string, k: nat)
    requires pat != [] && k <= |s|
    requires forall j :: 0 <= j < k ==> !OccursAt(s, pat, j)
    ensures Replace(s, pat, rep) == s[..k] + Replace(s[k..], pat, rep)
    decreases k
  {
    if k == 0 {
      assert s[k..] == s;
    } else if |s| < |pat| {
      assert s[..k] + s[k..] == s;
    } else {
      assert !OccursAt(s, pat, 0);
      var t := s[1..];
      forall j | 0 <= j < k - 1 ensures !OccursAt(t, pat, j) {
        OccursInSuffix(s, pat, 1, j + 1);
      }
      ReplaceSkip(t, pat, rep, k - 1);
      assert t[k - 1..] == s[k..];
      assert t[..k - 1] == s[1..k];
      assert [s[0]] + s[1..k] == s[..k];
      var tail := Replace(s[k..], pat, rep);
      calc {
        Replace(s, pat, rep);
        [s[0]] + Replace(t, pat, rep);
        [s[0]] + (s[1..k] + tail);
        { ConcatAssoc([s[0]], s[1..k], tail); }
        s[..k] + tail;
      }
    }
  }

  /** Replacing starts over after the first occurrence: the text before it,
      the replacement, then the rest replaced. */
  lemma ReplaceAtFirst(s: string, pat: string, rep: string, i: nat)
    requires pat != [] && OccursAt(s, pat, i)
    requires forall j :: 0 <= j < i ==> !OccursAt(s, pat, j)
    ensures Replace(s, pat, rep) == s[..i] + (rep + Replace(s[i + |pat|..], pat, rep))
  {
    ReplaceSkip(s, pat, rep, i);
    ReplaceHere(s[i..], pat, rep);
    assert s[i..][|pat|..] == s[i + |pat|..];
  }

  /** An occurrence at the start is replaced, then the rest. */
  lemma ReplaceHere(s: string, pat: string, rep: string)
    requires pat != [] && StartsWith(s, pat)
    ensures Replace(s, pat, rep) == rep + Replace(s[|pat|..], pat, rep)
  {
  }

  /** `s.replace(pat, rep)` is `rep.join(s.split(pat))`: the pieces between
      the occurrences, joined by the replacement. Splitting at most `|s|`
      times splits at every occurrence. */
  lemma {:induction false} ReplaceIsSplitJoin(s: string, pat: string, rep: string, maxsplit: nat)
    requires pat != [] && |s| <= maxsplit
    ensures Replace(s, pat, rep) == Join(SplitOn(s, pat, maxsplit), rep)
    decreases maxsplit
  {
    var r := IndexOf(s, pat);
    if r.None? {
      ReplaceAbsent(s, pat, rep);
      SplitOnWhole(s, pat, maxsplit);
    } else {
      var i := r.value;
      assert OccursAt(s, pat, i);
      var rest := s[i + |pat|..];
      ReplaceIsSplitJoin(rest, pat, rep, maxsplit - 1);
      ReplaceSplitJoinStep(s, pat, rep, maxsplit, i);
    }
  }

  lemma ReplaceSplitJoinStep(s: string, pat: string, rep: string, maxsplit: nat, i: nat)
    requires pat != [] && |s| <= maxsplit && IndexOf(s, pat) == Some(i)
    requires Replace(s[i + |pat|..], pat, rep) == Join(SplitOn(s[i + |pat|..], pat, maxsplit - 1), rep)
    ensures Replace(s, pat, rep) == Join(SplitOn(s, pat, maxsplit), rep)
  {
    var rest := s[i + |pat|..];
    var pieces := SplitOn(rest, pat, maxsplit - 1);
    calc {
      Replace(s, pat, rep);
    == { ReplaceAtFirst(s, pat, rep, i); }
      s[..i] + (rep + Replace(rest, pat, rep));
    ==
      s[..i] + (rep + Join(pieces, rep));
    == { ConcatAssoc(s[..i], rep, Join(pieces, rep)); }
      s[..i] + rep + Join(pieces, rep);
    == { JoinCons(s[..i], pieces, rep); }
      Join([s[..i]] + pieces, rep);
    == { SplitOnStep(s, pat, maxsplit, i); }
      Join(SplitOn(s, pat, maxsplit), rep);
    }
  }

  lemma ConcatAssoc(a: string, b: string, c: string)
    ensures a + (b + c) == a + b + c
  {
  }

  /** Replacing a pattern by itself changes nothing. */
  lemma {:induction false} ReplaceSame(s: string, pat: string)
    requires pat != []
    ensures Replace(s, pat, pat) == s
  {
    if |s| >= |pat| {
      if s[..|pat|] == pat {
        ReplaceSame(s[|pat|..], pat);
        assert s == s[..|pat|] + s[|pat|..];
      } else {
        ReplaceSame(s[1..], pat);
      }
    }
  }

  /** Python's `s[:n]`. */
  function Take(s: string, n: nat): (r: string)
    ensures StartsWith(s, r)
    ensures |r| == if |s| <= n then |s| else n
  {
    if |s| <= n then s else s[..n]
  }

  /** `c * n` in Python: `n` copies of `c`, none when `n` is not positive. */
  function Repeat(c: char, n: int): (r: string)
    ensures |r| == if n < 0 then 0 else n
    ensures forall k :: 0 <= k < |r| ==> r[k] == c
    decreases if n < 0 then 0 else n
  {
    if n <= 0 then [] else [c] + Repeat(c, n - 1)
  }

  // ---------------------------------------------------------------- integers

  /** `int(part / whole * 100)`, computed exactly: the floor of the
      percentage. */
  function Percent(part: nat, whole: nat): (p: nat)
    requires 0 < whole
    ensures p * whole <= part * 100 < (p + 1) * whole
    ensures part <= whole ==> p <= 100
  {
    part * 100 / whole
  }

  function DigitChar(d: nat): char
    requires d < 10
  {
    ('0' as int + d) as char
  }

  /** Python's `str(n)` for a natural number. */
  function NatToString(n: nat): (r: string)
    ensures |r| >= 1
    ensures forall k :: 0 <= k < |r| ==> '0' <= r[k] <= '9'
  {
    if n < 10 then [DigitChar(n)] else NatToString(n / 10) + [DigitChar(n % 10)]
  }

  /** Python's `int(s)` for a string of decimal digits. */
  function ParseNat(s: string): nat
    requires forall k :: 0 <= k < |s| ==> '0' <= s[k] <= '9'
  {
    if s == [] then 0 else ParseNat(s[..|s| - 1]) * 10 + (s[|s| - 1] as int - '0' as int)
  }

  lemma {:induction false} ParseNatToString(n: nat)
    ensures ParseNat(NatToString(n)) == n
  {
    if n >= 10 {
      var s := NatToString(n);
      assert s[..|s| - 1] == NatToString(n / 10);
      ParseNatToString(n / 10);
    }
  }

  /** Different numbers are printed differently. */
  lemma NatToStringInjective(m: nat, n: nat)
    requires NatToString(m) == NatToString(n)
    ensures m == n
  {
    ParseNatToString(m);
    ParseNatToString(n);
  }
}
