/**
 * Analyzers/NamespaceAnalyzer.cs: the namespace a file should declare is
 * derived from its path below the project root ("SOLTEC." followed by the
 * directory names joined with dots), and compared with the first line that
 * opens with `namespace `. `namespacePattern` stands for the pattern of
 * line 48 applied to that line: the matched text, or None.
 */
module NamespaceAnalyzer {
  import opened Text
  import opened Optional

  const RootPrefix := "SOLTEC."
  const NoNamespaceMessage := "No namespace declared."
  const InvalidMessage := "Namespace declaration is invalid."

  function MismatchMessage(expected: string, declared: string): string {
    "Namespace mismatch. Expected '" + expected + "' but found '" + declared + "'."
  }

  /**
   * The path below the root: every occurrence of the root removed,
   * backslashes turned into slashes, slashes trimmed from both ends.
   */
  function RelativePath(filePath: string, projectRoot: string): (r: string)
    requires projectRoot != []
    ensures '\\' !in r
    ensures r == [] || (r[0] != '/' && r[|r| - 1] != '/')
  {
    var unrooted := ReplaceAll(filePath, projectRoot, "");
    ReplaceCharRemoves(unrooted, '\\', "/");
    TrimChar(ReplaceAll(unrooted, "\\", "/"), '/')
  }

  /** The namespace segments: path segments ending in ".cs" dropped, ".cs" removed from the others. */
  function NamespaceSegments(segments: seq<string>): (r: seq<string>)
    ensures |r| <= |segments|
    ensures r == [] <==> forall k | 0 <= k < |segments| :: EndsWith(segments[k], ".cs")
    decreases |segments|
  {
    if segments == [] then []
    else
      var rest := NamespaceSegments(segments[1..]);
      if EndsWith(segments[0], ".cs") then rest else [ReplaceAll(segments[0], ".cs", "")] + rest
  }

  /** The expected namespace for a relative path; it always carries the root prefix. */
  function ExpectedFromRelative(relativePath: string): (r: string)
    ensures StartsWith(r, RootPrefix)
  {
    var r := RootPrefix + Join('.', NamespaceSegments(Split(relativePath, '/')));
    assert r[..|RootPrefix|] == RootPrefix;
    r
  }

  function ExpectedNamespace(filePath: string, projectRoot: string): string
    requires projectRoot != []
  {
    ExpectedFromRelative(RelativePath(filePath, projectRoot))
  }

  /** A line the search accepts: after its leading white space it opens with "namespace ". */
  predicate IsNamespaceLine(line: string) {
    StartsWith(TrimStart(line), "namespace ")
  }

  /** The namespace a matched declaration names: the keyword removed, trimmed, trailing semicolons dropped. */
  function DeclaredNamespace(matched: string): (r: string)
    ensures r == [] || r[|r| - 1] != ';'
  {
    TrimEndChar(Trim(ReplaceAll(matched, "namespace", "")), ';')
  }

  /** Some line opens with "namespace " after its leading white space. */
  predicate HasNamespaceLine(lines: seq<string>) {
    exists j | 0 <= j < |lines| :: IsNamespaceLine(lines[j])
  }

  /** The first line that opens with "namespace " after its leading white space, if any (FirstOrDefault). */
  function FirstNamespaceLine(lines: seq<string>): (r: Option<string>)
    ensures r.None? <==> !HasNamespaceLine(lines)
    ensures r.Some? ==> IsNamespaceLine(r.value)
  {
    var i := FirstIndex(lines, IsNamespaceLine);
    if i == -1 then None else Some(lines[i])
  }

  /** The line chosen is the first one that opens with "namespace ", whatever follows it. */
  lemma FirstNamespaceLineIsFirst(lines: seq<string>, i: nat)
    requires i < |lines| && IsNamespaceLine(lines[i])
    requires forall j | 0 <= j < i :: !IsNamespaceLine(lines[j])
    ensures FirstNamespaceLine(lines) == Some(lines[i])
  {
    FirstIndexIs(lines, IsNamespaceLine, i);
  }

  /**
   * The verdict on the namespace line found (lines 32-45): none or blank means
   * no namespace; a line the pattern rejects is invalid; otherwise the file is
   * valid exactly when the declared namespace equals the expected one, and the
   * message is empty exactly when the file is valid.
   */
  function CheckDeclaration(expected: string, namespaceLine: Option<string>,
                            namespacePattern: string -> Option<string>): (r: (bool, string))
    ensures r.0 <==> r.1 == ""
    ensures r.1 == NoNamespaceMessage <==> namespaceLine.None? || IsNullOrWhiteSpace(namespaceLine.value)
    ensures r.1 == InvalidMessage <==>
      namespaceLine.Some? && !IsNullOrWhiteSpace(namespaceLine.value) && namespacePattern(Trim(namespaceLine.value)).None?
    ensures r.0 <==>
      namespaceLine.Some? && !IsNullOrWhiteSpace(namespaceLine.value) && namespacePattern(Trim(namespaceLine.value)).Some? &&
      DeclaredNamespace(namespacePattern(Trim(namespaceLine.value)).value) == expected
    ensures !r.0 && namespaceLine.Some? && !IsNullOrWhiteSpace(namespaceLine.value)
      && namespacePattern(Trim(namespaceLine.value)).Some?
      ==> r.1 == MismatchMessage(expected, DeclaredNamespace(namespacePattern(Trim(namespaceLine.value)).value))
  {
    if namespaceLine.None? || IsNullOrWhiteSpace(namespaceLine.value) then
      (false, NoNamespaceMessage)
    else
      match namespacePattern(Trim(namespaceLine.value))
      case None => (false, InvalidMessage)
      case Some(matched) =>
        var declared := DeclaredNamespace(matched);
        if declared != expected then
          var m := MismatchMessage(expected, declared);
          assert m[1] == 'a' && m[10] == 'm';
          (false, m)
        else (true, "")
  }

  /** AnalyzeNamespace (lines 21-46): the message is empty exactly when the file is valid. */
  function AnalyzeNamespace(filePath: string, fileContent: string, projectRoot: string,
                            namespacePattern: string -> Option<string>): (r: (bool, string))
    requires projectRoot != []
    ensures r.0 <==> r.1 == ""
  {
    CheckDeclaration(ExpectedNamespace(filePath, projectRoot), FirstNamespaceLine(Split(fileContent, '\n')), namespacePattern)
  }

  /** A file has no namespace exactly when none of its lines opens with "namespace ". */
  lemma NoNamespaceExactlyWithoutLine(filePath: string, fileContent: string, projectRoot: string,
                                      namespacePattern: string -> Option<string>)
    requires projectRoot != []
    ensures AnalyzeNamespace(filePath, fileContent, projectRoot, namespacePattern).1 == NoNamespaceMessage
      <==> !HasNamespaceLine(Split(fileContent, '\n'))
  {
    NamespaceLinesNotBlank(Split(fileContent, '\n'));
  }

  /**
   * A file is valid exactly when the pattern accepts its first namespace line
   * and the namespace it declares is the one its path calls for.
   */
  lemma ValidExactlyWhenDeclaredAsExpected(filePath: string, fileContent: string, projectRoot: string,
                                           namespacePattern: string -> Option<string>)
    requires projectRoot != []
    ensures AnalyzeNamespace(filePath, fileContent, projectRoot, namespacePattern).0 <==>
      var line := FirstNamespaceLine(Split(fileContent, '\n'));
      line.Some? && namespacePattern(Trim(line.value)).Some? &&
      DeclaredNamespace(namespacePattern(Trim(line.value)).value) == ExpectedNamespace(filePath, projectRoot)
  {
    NamespaceLinesNotBlank(Split(fileContent, '\n'));
  }

  /** A line the search accepts is never blank. */
  lemma NamespaceLinesNotBlank(lines: seq<string>)
    ensures forall j | 0 <= j < |lines| && IsNamespaceLine(lines[j]) :: !IsNullOrWhiteSpace(lines[j])
  {
    forall j | 0 <= j < |lines| && IsNamespaceLine(lines[j]) ensures !IsNullOrWhiteSpace(lines[j]) {
      TrimmedNonEmptyNotBlank(lines[j]);
    }
  }

  // ---- properties of the path handling ----

  /** A directory name without ".cs" in it passes through the segment filter unchanged. */
  lemma PlainSegmentKept(d: string)
    requires !Contains(d, ".cs")
    ensures !EndsWith(d, ".cs") && ReplaceAll(d, ".cs", "") == d
  {
    if EndsWith(d, ".cs") { EndsWithContains(d, ".cs"); }
    ReplaceAbsent(d, ".cs", "");
  }

  /** Directory names free of ".cs", followed by the file name, give those directory names. */
  lemma {:induction false} DirectoriesKept(dirs: seq<string>, file: string)
    requires forall k | 0 <= k < |dirs| :: !Contains(dirs[k], ".cs")
    requires EndsWith(file, ".cs")
    ensures NamespaceSegments(dirs + [file]) == dirs
    decreases |dirs|
  {
    if dirs == [] {
      assert NamespaceSegments([file]) == NamespaceSegments([file][1..]);
    } else {
      DirectoriesKept(dirs[1..], file);
      PlainSegmentKept(dirs[0]);
      assert (dirs + [file])[1..] == dirs[1..] + [file];
      assert [dirs[0]] + dirs[1..] == dirs;
    }
  }

  /**
   * The intended reading of the path rule: for a file `dir1/.../dirN/File.cs`
   * below the root, whose directory names contain neither a slash nor ".cs",
   * the expected namespace is "SOLTEC.dir1.....dirN".
   */
  lemma DirectoriesBecomeNamespace(dirs: seq<string>, file: string)
    requires forall k | 0 <= k < |dirs| :: '/' !in dirs[k] && !Contains(dirs[k], ".cs")
    requires '/' !in file && EndsWith(file, ".cs")
    ensures ExpectedFromRelative(Join('/', dirs + [file])) == RootPrefix + Join('.', dirs)
  {
    SplitJoin(dirs + [file], '/');
    DirectoriesKept(dirs, file);
  }

  /**
   * A Windows path below the root, `projectRoot\dir1\...\file`, gives the
   * relative path `dir1/.../file`: the root is removed, backslashes become
   * slashes and the separator left at the front is trimmed. The root must not
   * occur again in the rest of the path, since every occurrence is removed.
   */
  lemma RelativePathOfNestedFile(projectRoot: string, parts: seq<string>)
    requires projectRoot != []
    requires parts != []
    requires forall k | 0 <= k < |parts| :: parts[k] != [] && '\\' !in parts[k] && '/' !in parts[k]
    requires !Contains("\\" + Join('\\', parts), projectRoot)
    ensures RelativePath(projectRoot + "\\" + Join('\\', parts), projectRoot) == Join('/', parts)
  {
    var rest := "\\" + Join('\\', parts);
    var j := Join('/', parts);
    assert projectRoot + "\\" + Join('\\', parts) == projectRoot + rest;
    ReplaceLeadingOccurrence(projectRoot, rest, "");
    assert "" + rest == rest;
    SeparatorsToSlashes(parts);
    JoinEdges('/', parts);
    TrimLeadingChar(j, '/');
    assert "/" + j == ['/'] + j;
  }

  /** Removing the root at the front of a path in which it does not occur again leaves the rest. */
  lemma ReplaceLeadingOccurrence(oldValue: string, rest: string, newValue: string)
    requires oldValue != [] && !Contains(rest, oldValue)
    ensures ReplaceAll(oldValue + rest, oldValue, newValue) == newValue + rest
  {
    assert (oldValue + rest)[..|oldValue|] == oldValue;
    assert (oldValue + rest)[|oldValue|..] == rest;
    ReplaceAbsent(rest, oldValue, newValue);
  }

  /** A leading backslash and the backslashes of a join all become slashes. */
  lemma SeparatorsToSlashes(parts: seq<string>)
    requires forall k | 0 <= k < |parts| :: '\\' !in parts[k]
    ensures ReplaceAll("\\" + Join('\\', parts), "\\", "/") == "/" + Join('/', parts)
  {
    ReplaceCharAppend("\\", Join('\\', parts), '\\', "/");
    assert ReplaceAll("\\", "\\", "/") == "/" by {
      assert "\\"[..1] == "\\" && "\\"[1..] == [];
    }
    ReplaceSeparator(parts, '\\', '/');
  }

  /** Trimming `c` from `c` followed by text that neither starts nor ends with `c` leaves that text. */
  lemma TrimLeadingChar(j: string, c: char)
    requires j != [] && j[0] != c && j[|j| - 1] != c
    ensures TrimChar([c] + j, c) == j
  {
    assert ([c] + j)[1..] == j;
    assert TrimStartChar([c] + j, c) == j;
  }

  /**
   * The path rule end to end: a file `projectRoot\dir1\...\dirN\File.cs`
   * whose directory names hold no separator and no ".cs" must declare the
   * namespace "SOLTEC.dir1.....dirN".
   */
  lemma PathBecomesNamespace(projectRoot: string, dirs: seq<string>, file: string)
    requires projectRoot != []
    requires forall k | 0 <= k < |dirs| ::
      dirs[k] != [] && '\\' !in dirs[k] && '/' !in dirs[k] && !Contains(dirs[k], ".cs")
    requires '\\' !in file && '/' !in file && EndsWith(file, ".cs")
    requires !Contains("\\" + Join('\\', dirs + [file]), projectRoot)
    ensures ExpectedNamespace(projectRoot + "\\" + Join('\\', dirs + [file]), projectRoot) == RootPrefix + Join('.', dirs)
  {
    var parts := dirs + [file];
    forall k | 0 <= k < |parts|
      ensures parts[k] != [] && '\\' !in parts[k] && '/' !in parts[k]
    {
      if k == |dirs| { assert parts[k] == file; } else { assert parts[k] == dirs[k]; }
    }
    RelativePathOfNestedFile(projectRoot, parts);
    DirectoriesBecomeNamespace(dirs, file);
  }

  /** Where no occurrence of the old value starts, replacing keeps the first character. */
  lemma ReplaceKeepsFirst(s: string, oldValue: string, newValue: string)
    requires oldValue != [] && s != [] && !StartsWith(s, oldValue)
    ensures ReplaceAll(s, oldValue, newValue) == [s[0]] + ReplaceAll(s[1..], oldValue, newValue)
  {
    if |s| < |oldValue| {
      assert ReplaceAll(s[1..], oldValue, newValue) == s[1..];
      assert [s[0]] + s[1..] == s;
    }
  }

  /** Replacing skips a prefix in which no occurrence of the old value starts. */
  lemma {:induction false} ReplaceSkipsPlainPrefix(a: string, rest: string, oldValue: string, newValue: string)
    requires oldValue != []
    requires forall i | 0 <= i < |a| :: !StartsWith((a + rest)[i..], oldValue)
    ensures ReplaceAll(a + rest, oldValue, newValue) == a + ReplaceAll(rest, oldValue, newValue)
    decreases |a|
  {
    if a == [] {
      assert a + rest == rest && a + ReplaceAll(rest, oldValue, newValue) == ReplaceAll(rest, oldValue, newValue);
    } else {
      var s := a + rest;
      PlainPrefixTail(a, rest, oldValue);
      ReplaceSkipsPlainPrefix(a[1..], rest, oldValue, newValue);
      assert s[0..] == s;
      ReplaceKeepsFirst(s, oldValue, newValue);
      assert s[0] == a[0] && s[1..] == a[1..] + rest;
      ConsTail(a, ReplaceAll(rest, oldValue, newValue));
    }
  }

  /** The tail of a plain prefix is a plain prefix. */
  lemma PlainPrefixTail(a: string, rest: string, oldValue: string)
    requires a != []
    requires forall i | 0 <= i < |a| :: !StartsWith((a + rest)[i..], oldValue)
    ensures forall i | 0 <= i < |a| - 1 :: !StartsWith((a[1..] + rest)[i..], oldValue)
  {
    forall i | 0 <= i < |a| - 1 ensures !StartsWith((a[1..] + rest)[i..], oldValue) {
      assert (a[1..] + rest)[i..] == (a + rest)[i + 1..];
    }
  }

  lemma ConsTail(a: string, r: string)
    requires a != []
    ensures [a[0]] + (a[1..] + r) == a + r
  {
    assert a == [a[0]] + a[1..];
  }


  /** Replacing ".cs" in ".cshtml" leaves "html". */
  lemma ReplaceInCshtml()
    ensures ReplaceAll(".cshtml", ".cs", "") == "html"
  {
    assert ".cshtml"[..3] == ".cs" && ".cshtml"[3..] == "html";
    assert "html" + [] == "html";
    forall i | 0 <= i < 4 ensures !StartsWith(("html" + [])[i..], ".cs") {
      assert ("html" + [])[i..][0] == "html"[i] != '.';
    }
    ReplaceSkipsPlainPrefix("html", [], ".cs", "");
  }

  /** No ".cs" starts within "Views" in "Views.cshtml". */
  lemma ViewsHasNoCs()
    ensures forall i | 0 <= i < 5 :: !StartsWith(("Views" + ".cshtml")[i..], ".cs")
  {
    forall i | 0 <= i < 5 ensures !StartsWith(("Views" + ".cshtml")[i..], ".cs") {
      assert ("Views" + ".cshtml")[i..][0] == "Views"[i] != '.';
    }
  }

  /** Replacing ".cs" in "Views.cshtml" leaves "Viewshtml". */
  lemma ReplaceInViewsCshtml()
    ensures ReplaceAll("Views.cshtml", ".cs", "") == "Viewshtml"
  {
    ViewsHasNoCs();
    ReplaceSkipsPlainPrefix("Views", ".cshtml", ".cs", "");
    ReplaceInCshtml();
    assert "Views" + ".cshtml" == "Views.cshtml";
    assert "Views" + "html" == "Viewshtml";
  }

  /**
   * ".cs" is removed inside the directory names that are kept, not only at
   * their end: a directory named "Views.cshtml" contributes "Viewshtml".
   */
  lemma CsRemovedInsideSegment()
    ensures NamespaceSegments(["Views.cshtml"]) == ["Viewshtml"]
  {
    var seg := "Views.cshtml";
    assert !EndsWith(seg, ".cs") by { assert seg[|seg| - 3..] == "tml"; }
    ReplaceInViewsCshtml();
    assert [seg][1..] == [];
    assert NamespaceSegments([seg]) == [ReplaceAll(seg, ".cs", "")] + NamespaceSegments([]);
  }

  /** Two files whose first namespace line is the same get the same verdict, whatever their other lines. */
  lemma FirstNamespaceLineDecides(filePath: string, content1: string, content2: string, projectRoot: string,
                                  namespacePattern: string -> Option<string>, i1: nat, i2: nat)
    requires projectRoot != []
    requires i1 < |Split(content1, '\n')| && i2 < |Split(content2, '\n')|
    requires IsNamespaceLine(Split(content1, '\n')[i1]) && forall j | 0 <= j < i1 :: !IsNamespaceLine(Split(content1, '\n')[j])
    requires IsNamespaceLine(Split(content2, '\n')[i2]) && forall j | 0 <= j < i2 :: !IsNamespaceLine(Split(content2, '\n')[j])
    requires Split(content1, '\n')[i1] == Split(content2, '\n')[i2]
    ensures AnalyzeNamespace(filePath, content1, projectRoot, namespacePattern)
         == AnalyzeNamespace(filePath, content2, projectRoot, namespacePattern)
  {
    FirstNamespaceLineIsFirst(Split(content1, '\n'), i1);
    FirstNamespaceLineIsFirst(Split(content2, '\n'), i2);
  }
}
