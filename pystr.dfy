/**
 * The handful of Python `str` operations that the reply extractor is built
 * from, defined with Python's own semantics over `seq<char>`:
 * `s.split(sep)`, `s.split(sep, 1)`, `sep.join(pieces)`, `s.replace(target, repl)`,
 * `s.startswith(p)`, `sub in s`, `s.split(sep)[-1]` and `s.strip()`.
 * Separators are non-empty, as every separator the extractor uses is a literal.
 */
module PyStr {

  /** `c.isspace()` in Python: the ASCII whitespace and separator controls,
      NEL, NO-BREAK SPACE and the Unicode space separators. */
  predicate IsSpace(c: char) {
    || c == ' '
    || ('\t' <= c <= '\r')
    || ('\U{1C}' <= c <= '\U{1F}')
    || c == '\U{85}' || c == '\U{A0}' || c == '\U{1680}'
    || ('\U{2000}' <= c <= '\U{200A}')
    || c == '\U{2028}' || c == '\U{2029}' || c == '\U{202F}' || c == '\U{205F}' || c == '\U{3000}'
  }

  ghost predicate AllSpace(s: string) {
    forall i :: 0 <= i < |s| ==> IsSpace(s[i])
  }

  /** `s.startswith(p)` */
  predicate StartsWith(s: string, p: string) {
    |p| <= |s| && s[..|p|] == p
  }

  /** `s.endswith(p)` */
  predicate EndsWith(s: string, p: string) {
    |p| <= |s| && s[|s| - |p|..] == p
  }

  /** `sub` occurs in `s` starting at index `i`. */
  ghost predicate OccursAt(s: string, sub: string, i: int) {
    0 <= i && i + |sub| <= |s| && s[i..i + |sub|] == sub
  }

  /** `sub in s` */
  predicate Contains(s: string, sub: string)
    decreases |s|
  {
    StartsWith(s, sub) || (s != [] && Contains(s[1..], sub))
  }

  /** `s.split(sep)`: scan left to right, cut at every non-overlapping
      occurrence of `sep`; there is always at least one piece. */
  function Split(s: string, sep: string): (pieces: seq<string>)
    requires |sep| > 0
    ensures |pieces| >= 1
    decreases |s|
  {
    if StartsWith(s, sep) then [""] + Split(s[|sep|..], sep)
    else if s == [] then [""]
    else
      var rest := Split(s[1..], sep);
      [[s[0]] + rest[0]] + rest[1..]
  }

  /** `s.split(sep, 1)`: cut at the first occurrence of `sep` only. */
  function SplitOnce(s: string, sep: string): (pieces: seq<string>)
    requires |sep| > 0
    ensures 1 <= |pieces| <= 2
    decreases |s|
  {
    if StartsWith(s, sep) then ["", s[|sep|..]]
    else if s == [] then [""]
    else
      var rest := SplitOnce(s[1..], sep);
      [[s[0]] + rest[0]] + rest[1..]
  }

  /** `sep.join(pieces)` */
  function Join(pieces: seq<string>, sep: string): string
  {
    if |pieces| == 0 then ""
    else if |pieces| == 1 then pieces[0]
    else pieces[0] + sep + Join(pieces[1..], sep)
  }

  /** `s.replace(target, repl)`: every non-overlapping occurrence of `target`, left to right, becomes `repl`. */
  function ReplaceAll(s: string, target: string, repl: string): string
    requires |target| > 0
    decreases |s|
  {
    if StartsWith(s, target) then repl + ReplaceAll(s[|target|..], target, repl)
    else if s == [] then ""
    else [s[0]] + ReplaceAll(s[1..], target, repl)
  }

  /** `s.split(sep)[-1]` */
  function LastPiece(s: string, sep: string): string
    requires |sep| > 0
  {
    var pieces := Split(s, sep);
    pieces[|pieces| - 1]
  }

  /** The length of the whitespace run that `s` starts with. */
  function LeadingSpaces(s: string): (n: nat)
    ensures n <= |s|
    ensures forall k :: 0 <= k < n ==> IsSpace(s[k])
    ensures n < |s| ==> !IsSpace(s[n])
    decreases |s|
  {
    if s != [] && IsSpace(s[0]) then 1 + LeadingSpaces(s[1..]) else 0
  }

  /** The length of the whitespace run that `s` ends with. */
  function TrailingSpaces(s: string): (n: nat)
    ensures n <= |s|
    ensures forall k :: |s| - n <= k < |s| ==> IsSpace(s[k])
    ensures n < |s| ==> !IsSpace(s[|s| - n - 1])
    decreases |s|
  {
    if s != [] && IsSpace(s[|s| - 1]) then 1 + TrailingSpaces(s[..|s| - 1]) else 0
  }

  /** `s.strip()`: the slice of `s` left once its leading and trailing
      whitespace runs are removed. It neither starts nor ends with whitespace,
      and it is empty exactly when `s` is all whitespace. */
  function Strip(s: string): (r: string)
    ensures exists i :: 0 <= i <= |s| - |r| && r == s[i..i + |r|]
                     && AllSpace(s[..i]) && AllSpace(s[i + |r|..])
    ensures r != [] ==> !IsSpace(r[0]) && !IsSpace(r[|r| - 1])
    ensures r == [] <==> AllSpace(s)
  {
    var a := LeadingSpaces(s);
    if a == |s| then
      SpaceRuns(s, a, 0);
      StripBlank(s);
      ""
    else
      var b := TrailingSpaces(s);
      RunsApart(s);
      SpaceRuns(s, a, b);
      StripSlice(s, a, b);
      s[a..|s| - b]
  }

  /** The leading and the trailing whitespace runs of a string that is not all whitespace do not meet. */
  lemma RunsApart(s: string)
    requires LeadingSpaces(s) < |s|
    ensures LeadingSpaces(s) + TrailingSpaces(s) < |s|
  {
    var a := LeadingSpaces(s);
    assert !IsSpace(s[a]);
  }

  /** What `Strip` promises, for an all-whitespace string. */
  lemma StripBlank(s: string)
    requires AllSpace(s[..|s|])
    ensures var r: string := "";
      && (exists i :: 0 <= i <= |s| - |r| && r == s[i..i + |r|] && AllSpace(s[..i]) && AllSpace(s[i + |r|..]))
      && AllSpace(s)
  {
    assert s[..|s|] == s && s[|s|..] == [];
  }

  /** What `Strip` promises, for the slice between the two runs. */
  lemma StripSlice(s: string, a: nat, b: nat)
    requires a + b < |s| && !IsSpace(s[a]) && !IsSpace(s[|s| - b - 1])
    requires AllSpace(s[..a]) && AllSpace(s[|s| - b..])
    ensures var r := s[a..|s| - b];
      && (exists i :: 0 <= i <= |s| - |r| && r == s[i..i + |r|] && AllSpace(s[..i]) && AllSpace(s[i + |r|..]))
      && r != [] && !IsSpace(r[0]) && !IsSpace(r[|r| - 1])
      && !AllSpace(s)
  {
    SliceWitness(s, a, b);
    SliceEnds(s, a, b);
    NotAllSpace(s, a);
  }

  lemma SliceWitness(s: string, a: nat, b: nat)
    requires a + b <= |s| && AllSpace(s[..a]) && AllSpace(s[|s| - b..])
    ensures var r := s[a..|s| - b];
      exists i :: 0 <= i <= |s| - |r| && r == s[i..i + |r|] && AllSpace(s[..i]) && AllSpace(s[i + |r|..])
  {
    var r := s[a..|s| - b];
    assert a + |r| == |s| - b;
    assert r == s[a..a + |r|];
  }

  lemma SliceEnds(s: string, a: nat, b: nat)
    requires a + b < |s|
    ensures var r := s[a..|s| - b];
      r != [] && r[0] == s[a] && r[|r| - 1] == s[|s| - b - 1]
  {
  }

  lemma NotAllSpace(s: string, k: nat)
    requires k < |s| && !IsSpace(s[k])
    ensures !AllSpace(s)
  {
  }

  lemma SpaceRuns(s: string, a: nat, b: nat)
    requires a + b <= |s|
    requires forall k :: 0 <= k < a ==> IsSpace(s[k])
    requires forall k :: |s| - b <= k < |s| ==> IsSpace(s[k])
    ensures AllSpace(s[..a]) && AllSpace(s[|s| - b..])
  {
  }

  // ---------------------------------------------------------------------
  // `in` and `startswith`

  /** `sub in s` holds exactly when `sub` occurs at some index of `s`. */
  lemma {:induction false} ContainsIffOccurs(s: string, sub: string)
    ensures Contains(s, sub) <==> exists i :: OccursAt(s, sub, i)
    decreases |s|
  {
    if StartsWith(s, sub) {
      assert OccursAt(s, sub, 0);
    } else if s == [] {
    } else {
      ContainsIffOccurs(s[1..], sub);
      if Contains(s[1..], sub) {
        var i :| OccursAt(s[1..], sub, i);
        assert s[i + 1..i + 1 + |sub|] == s[1..][i..i + |sub|];
        assert OccursAt(s, sub, i + 1);
      }
      if i :| OccursAt(s, sub, i) {
        assert i != 0;
        assert s[1..][i - 1..i - 1 + |sub|] == s[i..i + |sub|];
        assert OccursAt(s[1..], sub, i - 1);
      }
    }
  }

  /** A prefix that lacks the first character of `sub` hides no occurrence. */
  lemma {:induction false} ContainsSkip(x: string, y: string, sub: string)
    requires |sub| > 0 && sub[0] !in x
    ensures Contains(x + y, sub) == Contains(y, sub)
    decreases |x|
  {
    if x != [] {
      assert (x + y)[0] == x[0];
      assert !StartsWith(x + y, sub);
      assert (x + y)[1..] == x[1..] + y;
      ContainsSkip(x[1..], y, sub);
    } else {
      assert x + y == y;
    }
  }

  /** A string that lacks some character of `sub` does not contain `sub`. */
  lemma {:induction false} MissingChar(s: string, sub: string, k: nat)
    requires k < |sub| && sub[k] !in s
    ensures !Contains(s, sub)
    decreases |s|
  {
    if s != [] {
      MissingChar(s[1..], sub, k);
    }
  }

  /** Appending text that lacks the last character of `sub` adds no occurrence. */
  lemma ContainsAppendMissing(x: string, y: string, sub: string)
    requires |sub| > 0 && sub[|sub| - 1] !in y
    ensures Contains(x + y, sub) == Contains(x, sub)
  {
    ContainsIffOccurs(x + y, sub);
    ContainsIffOccurs(x, sub);
    forall i | OccursAt(x + y, sub, i)
      ensures OccursAt(x, sub, i)
    {
      OccursBeforeAppended(x, y, sub, i);
    }
    forall i | OccursAt(x, sub, i)
      ensures OccursAt(x + y, sub, i)
    {
      assert (x + y)[i..i + |sub|] == x[i..i + |sub|];
    }
  }

  /** An occurrence in `x + y` ends inside `x` when `y` lacks the last character of `sub`. */
  lemma OccursBeforeAppended(x: string, y: string, sub: string, i: int)
    requires |sub| > 0 && sub[|sub| - 1] !in y && OccursAt(x + y, sub, i)
    ensures OccursAt(x, sub, i)
  {
    var n := |sub|;
    assert (x + y)[i + n - 1] == (x + y)[i..i + n][n - 1];
    forall j | |x| <= j < |x + y|
      ensures (x + y)[j] != sub[n - 1]
    {
      assert (x + y)[j] == y[j - |x|];
    }
    assert (x + y)[i..i + n] == x[i..i + n];
  }

  /** A separator whose last character occurs nowhere before it cannot start
      inside a string that does not contain it. */
  lemma CleanByLastChar(a: string, sep: string)
    requires |sep| > 0 && sep[|sep| - 1] !in sep[..|sep| - 1] && !Contains(a, sep)
    ensures Clean(a, sep)
  {
    ContainsAppendMissing(a, sep[..|sep| - 1], sep);
  }

  /** Lines without the character `c`, none of them empty, joined with `c`,
      and followed by one more `c`, never show two `c` in a row. */
  lemma {:induction false} JoinLinesClean(lines: seq<string>, c: char)
    requires |lines| >= 1
    requires forall k :: 0 <= k < |lines| ==> lines[k] != [] && c !in lines[k]
    ensures !Contains(Join(lines, [c]) + [c], [c, c])
    decreases |lines|
  {
    var l := lines[0];
    if |lines| == 1 {
      ContainsSkip(l, [c], [c, c]);
      ShortNotContains([c], [c, c]);
    } else {
      var j := Join(lines[1..], [c]);
      JoinLinesClean(lines[1..], c);
      assert j[0] == lines[1][0];
      assert Join(lines, [c]) + [c] == l + ([c] + j + [c]);
      ContainsSkip(l, [c] + j + [c], [c, c]);
      assert ([c] + j + [c])[1] == j[0];
      assert ([c] + j + [c])[1..] == j + [c];
    }
  }

  /** Lines without `c` joined by `c` split back into those lines. */
  lemma SplitJoinedLines(lines: seq<string>, c: char)
    requires |lines| >= 1
    requires forall k :: 0 <= k < |lines| ==> c !in lines[k]
    ensures Split(Join(lines, [c]), [c]) == lines
  {
    forall k | 0 <= k < |lines|
      ensures Clean(lines[k], [c]) && !Contains(lines[k], [c])
    {
      MissingChar(lines[k], [c], 0);
      assert lines[k] + [c][..0] == lines[k];
    }
    SplitJoin(lines, [c]);
  }

  /** Different first characters: no prefix match. */
  lemma FirstCharDiffers(s: string, p: string)
    requires s != [] && p != [] && s[0] != p[0]
    ensures !StartsWith(s, p)
  {
    if |p| <= |s| {
      assert s[..|p|][0] == s[0];
    }
  }

  /** A character that `sub` lacks cannot lie inside an occurrence, so an
      occurrence in `x + [c] + y` lies wholly in `x` or wholly in `y`. */
  lemma ContainsAcross(x: string, c: char, y: string, sub: string)
    requires c !in sub && !Contains(x, sub) && !Contains(y, sub)
    ensures !Contains(x + [c] + y, sub)
  {
    var s := x + [c] + y;
    var n := |sub|;
    ContainsIffOccurs(s, sub);
    ContainsIffOccurs(x, sub);
    ContainsIffOccurs(y, sub);
    forall i | 0 <= i && i + n <= |s|
      ensures !OccursAt(s, sub, i)
    {
      NotAcrossAt(x, c, y, sub, i);
    }
  }

  lemma NotAcrossAt(x: string, c: char, y: string, sub: string, i: nat)
    requires c !in sub && !OccursAt(x, sub, i) && !OccursAt(y, sub, i - |x| - 1)
    requires i + |sub| <= |x| + 1 + |y|
    ensures !OccursAt(x + [c] + y, sub, i)
  {
    var s := x + [c] + y;
    var n := |sub|;
    if i + n <= |x| {
      assert s[i..i + n] == x[i..i + n];
    } else if i > |x| {
      assert s[|x| + 1..] == y;
      assert s[i..i + n] == s[|x| + 1..][i - |x| - 1..i - |x| - 1 + n];
    } else {
      assert s[i..i + n][|x| - i] == c;
    }
  }

  /** A string shorter than `sub` does not contain it. */
  lemma {:induction false} ShortNotContains(s: string, sub: string)
    requires |s| < |sub|
    ensures !Contains(s, sub)
    decreases |s|
  {
    if s != [] {
      ShortNotContains(s[1..], sub);
    }
  }

  /** An occurrence of `p + q` is an occurrence of `p`. */
  lemma {:induction false} ContainsLonger(s: string, p: string, q: string)
    requires Contains(s, p + q)
    ensures Contains(s, p)
    decreases |s|
  {
    if StartsWith(s, p + q) {
      assert s[..|p|] == s[..|p + q|][..|p|];
      assert (p + q)[..|p|] == p;
    } else {
      ContainsLonger(s[1..], p, q);
    }
  }

  /** An occurrence survives extension on either side. */
  lemma {:induction false} ContainsExtend(x: string, s: string, y: string, sub: string)
    requires Contains(s, sub)
    ensures Contains(x + s + y, sub)
  {
    ContainsIffOccurs(s, sub);
    var i :| OccursAt(s, sub, i);
    assert (x + s + y)[|x| + i..|x| + i + |sub|] == s[i..i + |sub|];
    assert OccursAt(x + s + y, sub, |x| + i);
    ContainsIffOccurs(x + s + y, sub);
  }

  lemma ContainsItself(x: string, sub: string, y: string)
    ensures Contains(x + sub + y, sub)
  {
    assert StartsWith(sub, sub);
    ContainsExtend(x, sub, y, sub);
  }

  /** No occurrence in a piece implies none in any of its slices. */
  lemma {:induction false} NotContainsSlice(s: string, sub: string, i: nat, j: nat)
    requires i <= j <= |s| && !Contains(s, sub)
    ensures !Contains(s[i..j], sub)
  {
    if Contains(s[i..j], sub) {
      assert s == s[..i] + s[i..j] + s[j..];
      ContainsExtend(s[..i], s[i..j], s[j..], sub);
    }
  }

  // ---------------------------------------------------------------------
  // `split` and `join`

  /** Round trip: joining the pieces with the separator gives back `s`. */
  lemma {:induction false} JoinSplit(s: string, sep: string)
    requires |sep| > 0
    ensures Join(Split(s, sep), sep) == s
    decreases |s|
  {
    if StartsWith(s, sep) {
      JoinSplit(s[|sep|..], sep);
      JoinSplitAtSep(s, sep);
    } else if s == [] {
    } else {
      JoinSplit(s[1..], sep);
      JoinSplitPastChar(s, sep);
    }
  }

  /** The step of `JoinSplit` where `s` starts with the separator. */
  lemma JoinSplitAtSep(s: string, sep: string)
    requires |sep| > 0 && StartsWith(s, sep)
    requires Join(Split(s[|sep|..], sep), sep) == s[|sep|..]
    ensures Join(Split(s, sep), sep) == s
  {
    var rest := Split(s[|sep|..], sep);
    JoinEmptyFirst(rest, sep);
    PrefixThenRest(s, sep);
  }

  lemma JoinEmptyFirst(pieces: seq<string>, sep: string)
    requires |pieces| >= 1
    ensures Join([""] + pieces, sep) == sep + Join(pieces, sep)
  {
    var q := [""] + pieces;
    assert q[1..] == pieces;
  }

  lemma PrefixThenRest(s: string, p: string)
    requires StartsWith(s, p)
    ensures s == p + s[|p|..]
  {
  }

  /** The step of `JoinSplit` where the first character of `s` is kept. */
  lemma JoinSplitPastChar(s: string, sep: string)
    requires |sep| > 0 && s != [] && !StartsWith(s, sep)
    requires Join(Split(s[1..], sep), sep) == s[1..]
    ensures Join(Split(s, sep), sep) == s
  {
    var rest := Split(s[1..], sep);
    JoinConsFirst(s[0], rest, sep);
    assert s == [s[0]] + s[1..];
  }

  lemma JoinConsFirst(c: char, pieces: seq<string>, sep: string)
    requires |pieces| >= 1
    ensures Join([[c] + pieces[0]] + pieces[1..], sep) == [c] + Join(pieces, sep)
  {
    var q := [[c] + pieces[0]] + pieces[1..];
    assert q[1..] == pieces[1..];
  }

  /** `sep in s` exactly when the split yields more than one piece. */
  lemma {:induction false} SplitCountIff(s: string, sep: string)
    requires |sep| > 0
    ensures |Split(s, sep)| == 1 <==> !Contains(s, sep)
    decreases |s|
  {
    if StartsWith(s, sep) {
    } else if s == [] {
    } else {
      SplitCountIff(s[1..], sep);
    }
  }

  /** Without an occurrence, the split is the whole string. */
  lemma NoSepSplit(s: string, sep: string)
    requires |sep| > 0 && !Contains(s, sep)
    ensures Split(s, sep) == [s]
  {
    SplitCountIff(s, sep);
    JoinSplit(s, sep);
  }

  /** The first piece is a prefix of `s`. */
  lemma {:induction false} SplitFirstIsPrefix(s: string, sep: string)
    requires |sep| > 0
    ensures StartsWith(s, Split(s, sep)[0])
    decreases |s|
  {
    if !StartsWith(s, sep) && s != [] {
      SplitFirstIsPrefix(s[1..], sep);
    }
  }

  /** No piece of a split contains the separator. */
  lemma {:induction false} SplitPiecesClean(s: string, sep: string)
    requires |sep| > 0
    ensures forall k :: 0 <= k < |Split(s, sep)| ==> !Contains(Split(s, sep)[k], sep)
    decreases |s|
  {
    if StartsWith(s, sep) {
      SplitPiecesClean(s[|sep|..], sep);
      ShortNotContains("", sep);
    } else if s == [] {
      ShortNotContains("", sep);
    } else {
      var rest := Split(s[1..], sep);
      SplitPiecesClean(s[1..], sep);
      SplitFirstIsPrefix(s[1..], sep);
      var p := [s[0]] + rest[0];
      assert p[1..] == rest[0];
      if |sep| <= |p| {
        assert s[..|sep|] == p[..|sep|];
      }
      assert !Contains(p, sep);
    }
  }

  /** The piece before a separator that cannot start inside it. A string is
      clean for `sep` when no occurrence of `sep` starts in it, even one that
      runs on into a following separator. */
  lemma {:induction false} SplitAfterClean(a: string, rest: string, sep: string)
    requires |sep| > 0 && !Contains(a + sep[..|sep| - 1], sep)
    ensures Split(a + sep + rest, sep) == [a] + Split(rest, sep)
    decreases |a|
  {
    var s := a + sep + rest;
    if a == [] {
      assert s == sep + rest;
      assert StartsWith(s, sep);
      assert s[|sep|..] == rest;
    } else {
      var t := a + sep[..|sep| - 1];
      if |sep| <= |s| {
        assert t[..|sep|] == s[..|sep|];
      }
      assert !StartsWith(s, sep);
      assert t[1..] == a[1..] + sep[..|sep| - 1];
      SplitAfterClean(a[1..], rest, sep);
      assert s[1..] == a[1..] + sep + rest;
      assert a == [a[0]] + a[1..];
    }
  }

  /** Two clean pieces, each followed by `sep`, come back as the first two pieces. */
  lemma SplitTwoClean(a: string, b: string, c: string, sep: string)
    requires |sep| > 0 && Clean(a, sep) && Clean(b, sep)
    ensures Split(a + sep + b + sep + c, sep) == [a, b] + Split(c, sep)
  {
    var rest := b + sep + c;
    var tail := Split(c, sep);
    calc {
      Split(a + sep + b + sep + c, sep);
      { assert a + sep + b + sep + c == a + sep + rest; }
      Split(a + sep + rest, sep);
      { SplitAfterClean(a, rest, sep); }
      [a] + Split(rest, sep);
      { SplitAfterClean(b, c, sep); }
      [a] + ([b] + tail);
      [a, b] + tail;
    }
  }

  /** A string is clean for `sep` when no occurrence of `sep` starts in it. */
  ghost predicate Clean(a: string, sep: string)
    requires |sep| > 0
  {
    !Contains(a + sep[..|sep| - 1], sep)
  }

  /** The other round trip: splitting a join of clean pieces gives them back. */
  lemma {:induction false} SplitJoin(pieces: seq<string>, sep: string)
    requires |sep| > 0 && |pieces| >= 1
    requires forall k :: 0 <= k < |pieces| - 1 ==> Clean(pieces[k], sep)
    requires !Contains(pieces[|pieces| - 1], sep)
    ensures Split(Join(pieces, sep), sep) == pieces
    decreases |pieces|
  {
    if |pieces| == 1 {
      NoSepSplit(pieces[0], sep);
    } else {
      assert Clean(pieces[0], sep);
      SplitJoin(pieces[1..], sep);
      SplitAfterClean(pieces[0], Join(pieces[1..], sep), sep);
      assert Join(pieces, sep) == pieces[0] + sep + Join(pieces[1..], sep);
    }
  }

  /** A string that lacks the separator's first character is clean. */
  lemma CleanByMissingFirst(a: string, sep: string)
    requires |sep| > 0 && sep[0] !in a
    ensures Clean(a, sep)
  {
    ContainsSkip(a, sep[..|sep| - 1], sep);
    ShortNotContains(sep[..|sep| - 1], sep);
  }

  /** Splitting on one character: one more piece than occurrences. */
  function CountChar(s: string, c: char): nat
  {
    if s == [] then 0 else (if s[0] == c then 1 else 0) + CountChar(s[1..], c)
  }

  lemma {:induction false} SplitCharCount(s: string, c: char)
    ensures |Split(s, [c])| == CountChar(s, c) + 1
    decreases |s|
  {
    if s != [] {
      SplitCharCount(s[1..], c);
      assert StartsWith(s, [c]) <==> s[0] == c;
    }
  }

  /** `s.split(sep)[-1]` when `sep` does not occur is `s`; otherwise `s` ends
      with `sep` followed by it, and it does not contain `sep`. */
  lemma LastPieceSpec(s: string, sep: string)
    requires |sep| > 0
    ensures !Contains(LastPiece(s, sep), sep)
    ensures !Contains(s, sep) ==> LastPiece(s, sep) == s
    ensures Contains(s, sep) ==> EndsWith(s, sep + LastPiece(s, sep))
  {
    var pieces := Split(s, sep);
    SplitPiecesClean(s, sep);
    SplitCountIff(s, sep);
    if !Contains(s, sep) {
      NoSepSplit(s, sep);
    } else {
      JoinSplit(s, sep);
      JoinLast(pieces, sep);
    }
  }

  lemma {:induction false} JoinLast(pieces: seq<string>, sep: string)
    requires |pieces| >= 2
    ensures EndsWith(Join(pieces, sep), sep + pieces[|pieces| - 1])
    decreases |pieces|
  {
    var j := Join(pieces, sep);
    if |pieces| == 2 {
      assert j == pieces[0] + (sep + pieces[1]);
    } else {
      JoinLast(pieces[1..], sep);
      assert j == pieces[0] + sep + Join(pieces[1..], sep);
    }
  }

  /** `s.split(". ", 1)[-1]` on a string that starts with "1. " drops those
      three characters. */
  lemma SplitOnceNumbered(s: string)
    requires StartsWith(s, "1. ")
    ensures var p := SplitOnce(s, ". "); p[|p| - 1] == s[3..]
  {
    assert s[0] == '1' && s[1] == '.' && s[2] == ' ';
    assert !StartsWith(s, ". ");
    assert s[1..][..2] == ". ";
    assert s[1..][2..] == s[3..];
  }

  // ---------------------------------------------------------------------
  // `replace`

  /** `s.replace(target, repl)` is `repl.join(s.split(target))`. */
  lemma {:induction false} ReplaceIsJoinSplit(s: string, target: string, repl: string)
    requires |target| > 0
    ensures ReplaceAll(s, target, repl) == Join(Split(s, target), repl)
    decreases |s|
  {
    if StartsWith(s, target) {
      ReplaceIsJoinSplit(s[|target|..], target, repl);
      JoinEmptyFirst(Split(s[|target|..], target), repl);
    } else if s == [] {
    } else {
      ReplaceIsJoinSplit(s[1..], target, repl);
      JoinConsFirst(s[0], Split(s[1..], target), repl);
    }
  }

  /** Nothing to replace: `s` is unchanged. */
  lemma {:induction false} ReplaceAbsent(s: string, target: string, repl: string)
    requires |target| > 0 && !Contains(s, target)
    ensures ReplaceAll(s, target, repl) == s
    decreases |s|
  {
    if s != [] {
      ReplaceAbsent(s[1..], target, repl);
    }
  }

  /** A prefix without the first character of `target` passes through unchanged. */
  lemma {:induction false} ReplaceSkip(x: string, y: string, target: string, repl: string)
    requires |target| > 0 && target[0] !in x
    ensures ReplaceAll(x + y, target, repl) == x + ReplaceAll(y, target, repl)
    decreases |x|
  {
    if x != [] {
      assert (x + y)[0] == x[0];
      assert (x + y)[1..] == x[1..] + y;
      ReplaceSkip(x[1..], y, target, repl);
    } else {
      assert x + y == y;
    }
  }

  lemma ReplaceHere(y: string, target: string, repl: string)
    requires |target| > 0
    ensures ReplaceAll(target + y, target, repl) == repl + ReplaceAll(y, target, repl)
  {
    assert (target + y)[..|target|] == target;
    assert (target + y)[|target|..] == y;
  }

  /** Removing every `cc` from `x + [c, c]`, where `x` holds no `cc`, gives
      back `x`: a last `c` of `x` pairs with the first appended one, and the
      one left over stands in for it. */
  lemma {:induction false} ReplaceTrailingPair(x: string, c: char)
    requires !Contains(x, [c, c])
    ensures ReplaceAll(x + [c, c], [c, c], "") == x
    decreases |x|
  {
    var s := x + [c, c];
    if x == [] {
      assert s == [c, c] + [];
      ReplaceHere([], [c, c], "");
    } else if x == [c] {
      assert s == [c, c] + [c];
      ReplaceHere([c], [c, c], "");
      assert !StartsWith([c], [c, c]);
      assert [c][1..] == [];
    } else {
      assert !StartsWith(x, [c, c]);
      assert |x| >= 2 && x[0] == c ==> x[1] != c by {
        if |x| >= 2 {
          assert x[..2] == [x[0], x[1]];
        }
      }
      assert |x| == 1 ==> x[0] != c by {
        if |x| == 1 {
          assert x == [x[0]];
        }
      }
      assert !StartsWith(s, [c, c]) by {
        assert s[0] == x[0];
        assert |x| >= 2 ==> s[1] == x[1];
        assert |x| == 1 ==> s[1] == c;
      }
      assert s[1..] == x[1..] + [c, c];
      ReplaceTrailingPair(x[1..], c);
    }
  }

  /** Removing every `cc` from `prefix + [c, c] + x + [c, c]` gives
      `prefix + x` when `prefix` has no `c` and `x` holds no `cc`. */
  lemma ReplaceFramedPair(prefix: string, x: string, c: char)
    requires c !in prefix && !Contains(x, [c, c])
    ensures ReplaceAll(prefix + [c, c] + x + [c, c], [c, c], "") == prefix + x
  {
    var rest := [c, c] + x + [c, c];
    assert prefix + [c, c] + x + [c, c] == prefix + rest;
    ReplaceSkip(prefix, rest, [c, c], "");
    ReplaceLeadingPair(x, c);
  }

  lemma ReplaceLeadingPair(x: string, c: char)
    requires !Contains(x, [c, c])
    ensures ReplaceAll([c, c] + x + [c, c], [c, c], "") == x
  {
    var t := x + [c, c];
    assert [c, c] + x + [c, c] == [c, c] + t;
    ReplaceHere(t, [c, c], "");
    ReplaceTrailingPair(x, c);
  }

  /** Removing every doubled character `cc` leaves no `cc` behind, and keeps
      a first character that is not `c`. */
  lemma {:induction false} RemoveDoubledGone(s: string, c: char)
    ensures !Contains(ReplaceAll(s, [c, c], ""), [c, c])
    ensures s != [] && s[0] != c ==> ReplaceAll(s, [c, c], "") != [] && ReplaceAll(s, [c, c], "")[0] == s[0]
    decreases |s|
  {
    var r := ReplaceAll(s, [c, c], "");
    if StartsWith(s, [c, c]) {
      RemoveDoubledGone(s[2..], c);
      assert r == ReplaceAll(s[2..], [c, c], "");
    } else if s == [] {
      ShortNotContains("", [c, c]);
    } else {
      RemoveDoubledGone(s[1..], c);
      var t := ReplaceAll(s[1..], [c, c], "");
      assert r == [s[0]] + t;
      assert r[1..] == t;
      assert !StartsWith(r, [c, c]) by {
        if s[0] == c && |s| >= 2 {
          assert s[..2] == [s[0], s[1]];
          assert s[1..][0] == s[1];
        }
      }
    }
  }

  // ---------------------------------------------------------------------
  // `strip`

  /** Stripping twice is stripping once. */
  lemma StripIdempotent(s: string)
    ensures Strip(Strip(s)) == Strip(s)
  {
    StripKeepsTrimmed(Strip(s));
  }

  /** A string that neither starts nor ends with whitespace is its own strip. */
  lemma StripKeepsTrimmed(s: string)
    requires s != [] ==> !IsSpace(s[0]) && !IsSpace(s[|s| - 1])
    ensures Strip(s) == s
  {
    if s != [] {
      assert LeadingSpaces(s) == 0;
      assert TrailingSpaces(s) == 0;
      assert s[0..|s|] == s;
    }
  }

  /** Whitespace around a trimmed core is removed, and only that. */
  lemma StripFrame(w1: string, core: string, w2: string)
    requires AllSpace(w1) && AllSpace(w2)
    requires core != [] && !IsSpace(core[0]) && !IsSpace(core[|core| - 1])
    ensures Strip(w1 + core + w2) == core
  {
    var s := w1 + core + w2;
    var a := LeadingSpaces(s);
    var b := TrailingSpaces(s);
    assert s[|w1|] == core[0];
    assert forall k :: 0 <= k < |w1| ==> s[k] == w1[k];
    assert a == |w1|;
    assert s[|s| - |w2| - 1] == core[|core| - 1];
    assert forall k :: |s| - |w2| <= k < |s| ==> s[k] == w2[k - (|s| - |w2|)];
    assert b == |w2|;
    assert s[a..|s| - b] == core;
  }
}
