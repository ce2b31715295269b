/**
 * The .NET string operations the analyzers apply to file text, written out
 * over `seq<char>`. Comparisons are ordinal.
 */
module Text {

  /** The characters char.IsWhiteSpace accepts: the Unicode White_Space set. */
  const WhiteSpaceChars: set<char> := {
    '\t', '\n', '\U{B}', '\U{C}', '\r', ' ', '\U{85}', '\U{A0}', '\U{1680}',
    '\U{2000}', '\U{2001}', '\U{2002}', '\U{2003}', '\U{2004}', '\U{2005}', '\U{2006}',
    '\U{2007}', '\U{2008}', '\U{2009}', '\U{200A}', '\U{2028}', '\U{2029}', '\U{202F}',
    '\U{205F}', '\U{3000}'
  }

  predicate IsWhiteSpace(c: char) {
    c in WhiteSpaceChars
  }

  /** string.IsNullOrWhiteSpace on a non-null string: every character is white space. */
  predicate IsNullOrWhiteSpace(s: string)
    decreases |s|
  {
    s == [] || (IsWhiteSpace(s[0]) && IsNullOrWhiteSpace(s[1..]))
  }

  /** char.IsUpper, restricted to the ASCII and Latin-1 upper-case letters. */
  predicate IsUpper(c: char) {
    'A' <= c <= 'Z' || ('\U{C0}' <= c <= '\U{DE}' && c != '\U{D7}')
  }

  predicate StartsWith(s: string, prefix: string) {
    |prefix| <= |s| && s[..|prefix|] == prefix
  }

  predicate EndsWith(s: string, suffix: string) {
    |suffix| <= |s| && s[|s| - |suffix|..] == suffix
  }

  /** string.Contains: `sub` occurs somewhere in `s`. */
  predicate Contains(s: string, sub: string)
    decreases |s|
  {
    StartsWith(s, sub) || (s != [] && Contains(s[1..], sub))
  }

  /** string.TrimStart(): drops the leading white space, leaving a suffix that starts with something else. */
  function TrimStart(s: string): (r: string)
    ensures |r| <= |s| && r == s[|s| - |r|..]
    ensures r == [] || !IsWhiteSpace(r[0])
    decreases |s|
  {
    if s != [] && IsWhiteSpace(s[0]) then TrimStart(s[1..]) else s
  }

  /** string.Trim(): drops white space at both ends; the result is empty exactly when the input is all white space. */
  function Trim(s: string): (r: string)
    ensures r == [] <==> IsNullOrWhiteSpace(s)
    decreases |s|
  {
    if s != [] && IsWhiteSpace(s[0]) then Trim(s[1..])
    else if s != [] && IsWhiteSpace(s[|s| - 1]) then
      BlankAfterLast(s);
      Trim(s[..|s| - 1])
    else s
  }

  /** string.TrimStart(c). */
  function TrimStartChar(s: string, c: char): (r: string)
    ensures |r| <= |s| && r == s[|s| - |r|..]
    ensures r == [] || r[0] != c
    decreases |s|
  {
    if s != [] && s[0] == c then TrimStartChar(s[1..], c) else s
  }

  /** string.TrimEnd(c). */
  function TrimEndChar(s: string, c: char): (r: string)
    ensures |r| <= |s| && r == s[..|r|]
    ensures r == [] || r[|r| - 1] != c
    ensures s != [] && s[|s| - 1] != c ==> r == s
    decreases |s|
  {
    if s != [] && s[|s| - 1] == c then TrimEndChar(s[..|s| - 1], c) else s
  }

  /** string.Trim(c): no occurrence of `c` is left at either end, and nothing is added. */
  function TrimChar(s: string, c: char): (r: string)
    ensures r == [] || (r[0] != c && r[|r| - 1] != c)
    ensures forall x | x in r :: x in s
  {
    var t := TrimStartChar(s, c);
    var r := TrimEndChar(t, c);
    assert r != [] ==> r[0] == t[0];
    r
  }

  /** The number of occurrences of `c` in `s`. */
  function Count(s: string, c: char): nat
    decreases |s|
  {
    if s == [] then 0 else (if s[0] == c then 1 else 0) + Count(s[1..], c)
  }

  /** string.Split(sep): the pieces between separators; never empty. */
  function Split(s: string, sep: char): (parts: seq<string>)
    ensures parts != []
    decreases |s|
  {
    if s == [] then [""]
    else
      var rest := Split(s[1..], sep);
      if s[0] == sep then [""] + rest else [[s[0]] + rest[0]] + rest[1..]
  }

  /** string.Join(sep, parts). */
  function Join(sep: char, parts: seq<string>): string
    decreases |parts|
  {
    if parts == [] then ""
    else if |parts| == 1 then parts[0]
    else parts[0] + [sep] + Join(sep, parts[1..])
  }

  /** string.Replace(oldValue, newValue): every non-overlapping occurrence, left to right. */
  function ReplaceAll(s: string, oldValue: string, newValue: string): string
    requires oldValue != []
    decreases |s|
  {
    if |s| < |oldValue| then s
    else if s[..|oldValue|] == oldValue then newValue + ReplaceAll(s[|oldValue|..], oldValue, newValue)
    else [s[0]] + ReplaceAll(s[1..], oldValue, newValue)
  }

  /** int.ToString() for a non-negative value: its decimal digits. */
  function NatToString(n: nat): string
    decreases n
  {
    if n < 10 then ["0123456789"[n]] else NatToString(n / 10) + ["0123456789"[n % 10]]
  }

  /** The position of the first element satisfying `p`, or -1 (the search of Enumerable.FirstOrDefault). */
  function FirstIndex(xs: seq<string>, p: string -> bool): (r: int)
    ensures r == -1 <==> forall j | 0 <= j < |xs| :: !p(xs[j])
    ensures r != -1 ==> 0 <= r < |xs| && p(xs[r]) && forall j | 0 <= j < r :: !p(xs[j])
  {
    FirstIndexFrom(xs, p, 0)
  }

  /** FirstIndex, searching from `i` once no earlier element qualifies. */
  function FirstIndexFrom(xs: seq<string>, p: string -> bool, i: nat): (r: int)
    requires i <= |xs|
    requires forall j | 0 <= j < i :: !p(xs[j])
    ensures r == -1 <==> forall j | 0 <= j < |xs| :: !p(xs[j])
    ensures r != -1 ==> i <= r < |xs| && p(xs[r]) && forall j | 0 <= j < r :: !p(xs[j])
    decreases |xs| - i
  {
    if i == |xs| then -1
    else if p(xs[i]) then i
    else FirstIndexFrom(xs, p, i + 1)
  }

  /** An element that qualifies, with none before it, is the one FirstIndex finds. */
  lemma FirstIndexIs(xs: seq<string>, p: string -> bool, i: nat)
    requires i < |xs| && p(xs[i])
    requires forall j | 0 <= j < i :: !p(xs[j])
    ensures FirstIndex(xs, p) == i
  {
  }

  /** Enumerable.LastOrDefault on a non-empty array. */
  function Last(parts: seq<string>): string
    requires parts != []
  {
    parts[|parts| - 1]
  }

  // ---- lemmas ----

  /** A split has as many parts as there are separators, plus one. */
  lemma {:induction false} SplitCount(s: string, sep: char)
    ensures |Split(s, sep)| == Count(s, sep) + 1
    decreases |s|
  {
    if s != [] {
      SplitCount(s[1..], sep);
    }
  }

  /** A piece free of the separator, followed by the separator, is split off as one part. */
  lemma {:induction false} SplitPrefix(x: string, rest: string, sep: char)
    requires sep !in x
    ensures Split(x + [sep] + rest, sep) == [x] + Split(rest, sep)
    decreases |x|
  {
    if x == [] {
      assert ([sep] + rest)[1..] == rest;
    } else {
      SplitPrefix(x[1..], rest, sep);
      assert (x + [sep] + rest)[1..] == x[1..] + [sep] + rest;
      assert [x[0]] + x[1..] == x;
    }
  }

  /** A string free of the separator splits into itself alone. */
  lemma {:induction false} SplitWhole(x: string, sep: char)
    requires sep !in x
    ensures Split(x, sep) == [x]
    decreases |x|
  {
    if x != [] {
      SplitWhole(x[1..], sep);
      assert [x[0]] + x[1..] == x;
    }
  }

  /** Splitting undoes joining when no part contains the separator. */
  lemma {:induction false} SplitJoin(parts: seq<string>, sep: char)
    requires parts != []
    requires forall k | 0 <= k < |parts| :: sep !in parts[k]
    ensures Split(Join(sep, parts), sep) == parts
    decreases |parts|
  {
    if |parts| == 1 {
      SplitWhole(parts[0], sep);
    } else {
      SplitJoin(parts[1..], sep);
      SplitPrefix(parts[0], Join(sep, parts[1..]), sep);
      assert [parts[0]] + parts[1..] == parts;
    }
  }

  /** Replacing a value that does not occur changes nothing. */
  lemma {:induction false} ReplaceAbsent(s: string, oldValue: string, newValue: string)
    requires oldValue != [] && !Contains(s, oldValue)
    ensures ReplaceAll(s, oldValue, newValue) == s
    decreases |s|
  {
    if |s| >= |oldValue| {
      ReplaceAbsent(s[1..], oldValue, newValue);
      assert [s[0]] + s[1..] == s;
    }
  }

  /** Replacing a one-character value by text free of it removes every occurrence. */
  lemma {:induction false} ReplaceCharRemoves(s: string, c: char, newValue: string)
    requires c !in newValue
    ensures c !in ReplaceAll(s, [c], newValue)
    decreases |s|
  {
    if |s| >= 1 {
      ReplaceCharRemoves(s[1..], c, newValue);
      if s[..1] != [c] { assert s[0] != c; }
    }
  }

  /** Replacing a character that does not occur changes nothing. */
  lemma {:induction false} ReplaceCharAbsent(s: string, c: char, newValue: string)
    requires c !in s
    ensures ReplaceAll(s, [c], newValue) == s
    decreases |s|
  {
    if s != [] {
      assert s[..1] == [s[0]];
      ReplaceCharAbsent(s[1..], c, newValue);
      assert [s[0]] + s[1..] == s;
    }
  }

  /** Replacing a single character works piecewise over a concatenation. */
  lemma {:induction false} ReplaceCharAppend(a: string, b: string, c: char, newValue: string)
    ensures ReplaceAll(a + b, [c], newValue) == ReplaceAll(a, [c], newValue) + ReplaceAll(b, [c], newValue)
    decreases |a|
  {
    if a == [] {
      assert a + b == b;
    } else {
      assert (a + b)[..1] == a[..1];
      assert (a + b)[1..] == a[1..] + b;
      ReplaceCharAppend(a[1..], b, c, newValue);
    }
  }

  /** Replacing the separator of a join, absent from the parts, gives the join by the new separator. */
  lemma {:induction false} ReplaceSeparator(parts: seq<string>, c: char, d: char)
    requires forall k | 0 <= k < |parts| :: c !in parts[k]
    ensures ReplaceAll(Join(c, parts), [c], [d]) == Join(d, parts)
    decreases |parts|
  {
    if |parts| == 1 {
      ReplaceCharAbsent(parts[0], c, [d]);
    } else if |parts| > 1 {
      ReplaceCharAppend(parts[0] + [c], Join(c, parts[1..]), c, [d]);
      ReplaceCharAppend(parts[0], [c], c, [d]);
      ReplaceCharAbsent(parts[0], c, [d]);
      assert ReplaceAll([c], [c], [d]) == [d] by {
        assert [c][..1] == [c] && [c][1..] == [];
      }
      ReplaceSeparator(parts[1..], c, d);
    }
  }

  /** A join of non-empty parts free of the separator neither starts nor ends with it. */
  lemma {:induction false} JoinEdges(sep: char, parts: seq<string>)
    requires parts != []
    requires forall k | 0 <= k < |parts| :: parts[k] != [] && sep !in parts[k]
    ensures var j := Join(sep, parts); j != [] && j[0] != sep && j[|j| - 1] != sep
    decreases |parts|
  {
    if |parts| > 1 {
      JoinEdges(sep, parts[1..]);
      assert parts[0][0] in parts[0];
    } else {
      assert parts[0][0] in parts[0] && parts[0][|parts[0]| - 1] in parts[0];
    }
  }

  /** One step of Split: the first character either ends the first part or joins it. */
  lemma SplitCons(c: char, t: string, sep: char)
    ensures Split([c] + t, sep) ==
      if c == sep then [""] + Split(t, sep) else [[c] + Split(t, sep)[0]] + Split(t, sep)[1..]
  {
    assert ([c] + t)[0] == c && ([c] + t)[1..] == t;
  }

  /** The inductive step of SplitAppend: one more character in front of the left side. */
  lemma SplitAppendStep(c: char, t: string, y: string, sep: char)
    requires Split(t + [sep] + y, sep) == Split(t, sep) + Split(y, sep)
    ensures Split([c] + t + [sep] + y, sep) == Split([c] + t, sep) + Split(y, sep)
  {
    assert [c] + t + [sep] + y == [c] + (t + [sep] + y);
    SplitCons(c, t + [sep] + y, sep);
    SplitCons(c, t, sep);
  }

  /** Splitting text around a separator splits each side on its own. */
  lemma {:induction false} SplitAppend(x: string, y: string, sep: char)
    ensures Split(x + [sep] + y, sep) == Split(x, sep) + Split(y, sep)
    decreases |x|
  {
    if x == [] {
      assert x + [sep] + y == [sep] + y;
      SplitCons(sep, y, sep);
    } else {
      SplitAppend(x[1..], y, sep);
      SplitAppendStep(x[0], x[1..], y, sep);
      assert [x[0]] + x[1..] == x;
    }
  }

  /** The part after the last separator is the last part of a split. */
  lemma SplitLast(x: string, y: string, sep: char)
    requires sep !in y
    ensures Last(Split(x + [sep] + y, sep)) == y
  {
    SplitAppend(x, y, sep);
    SplitWhole(y, sep);
  }

  /** A string placed anywhere inside another occurs in it. */
  lemma {:induction false} ContainsInside(a: string, sub: string, b: string)
    ensures Contains(a + sub + b, sub)
    decreases |a|
  {
    if a == [] {
      assert (sub + b)[..|sub|] == sub;
    } else {
      ContainsInside(a[1..], sub, b);
      assert (a + sub + b)[1..] == a[1..] + sub + b;
    }
  }

  /** A suffix of a string occurs in it. */
  lemma {:induction false} EndsWithContains(s: string, sub: string)
    requires EndsWith(s, sub)
    ensures Contains(s, sub)
    decreases |s|
  {
    if !StartsWith(s, sub) {
      assert s != [];
      assert s[1..][|s| - 1 - |sub|..] == s[|s| - |sub|..];
      EndsWithContains(s[1..], sub);
    }
  }

  /** A string ending in white space is blank exactly when the rest of it is. */
  lemma {:induction false} BlankAfterLast(s: string)
    requires s != [] && IsWhiteSpace(s[|s| - 1])
    ensures IsNullOrWhiteSpace(s) <==> IsNullOrWhiteSpace(s[..|s| - 1])
    decreases |s|
  {
    if |s| > 1 {
      BlankAfterLast(s[1..]);
      assert s[1..][..|s| - 2] == s[..|s| - 1][1..];
    }
  }

  /** A blank string trims to nothing. */
  lemma {:induction false} BlankTrimsToEmpty(s: string)
    requires IsNullOrWhiteSpace(s)
    ensures TrimStart(s) == []
    decreases |s|
  {
    if s != [] {
      BlankTrimsToEmpty(s[1..]);
    }
  }

  /** A string with something left after TrimStart is not blank. */
  lemma TrimmedNonEmptyNotBlank(s: string)
    requires TrimStart(s) != []
    ensures !IsNullOrWhiteSpace(s)
  {
    if IsNullOrWhiteSpace(s) { BlankTrimsToEmpty(s); }
  }
}
