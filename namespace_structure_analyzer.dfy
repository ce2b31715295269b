/**
 * Analyzers/NamespaceStructureAnalyzer.cs: the file must declare exactly one
 * namespace, and its first substantive line (not blank, not a comment) must
 * be that declaration. `namespaceDecl` stands for the multiline pattern of
 * line 24, applied to the whole file.
 */
module NamespaceStructureAnalyzer {
  import opened Text
  import opened RegexModel

  const NoDeclaration := "No namespace declaration found."
  const MultipleDeclarations := "Multiple namespace declarations found in the same file."
  const NotAtTop := "Namespace declaration is not at the top of the file."

  /** A trimmed line the scan passes over: blank, or opening a line comment or a block comment. */
  predicate IsSkipped(trimmed: string) {
    IsNullOrWhiteSpace(trimmed) || StartsWith(trimmed, "//") || StartsWith(trimmed, "/*")
  }

  /** A line the scan stops at. */
  predicate IsSubstantive(line: string) {
    !IsSkipped(Trim(line))
  }

  /** The position message, decided by the first substantive line of `lines`. */
  function PositionViolations(lines: seq<string>): (r: seq<string>)
    ensures r == [] || r == [NotAtTop]
  {
    var i := FirstIndex(lines, IsSubstantive);
    if i != -1 && !StartsWith(Trim(lines[i]), "namespace ") then [NotAtTop] else []
  }

  /** The messages for a file with `declarations` namespace matches. */
  function StructureViolations(fileContent: string, declarations: nat): (r: seq<string>)
    ensures |r| <= 2
    ensures r == [NoDeclaration] <==> declarations == 0
  {
    if declarations == 0 then [NoDeclaration]
    else
      var r := (if declarations > 1 then [MultipleDeclarations] else []) + PositionViolations(Split(fileContent, '\n'));
      assert r == [] || r[0] == MultipleDeclarations || r[0] == NotAtTop;
      assert |NoDeclaration| == 31 && |MultipleDeclarations| == 55 && |NotAtTop| == 52;
      r
  }

  /** AnalyzeNamespaceStructure: the early return, the count test and the line scan with `continue` and `break`. */
  method AnalyzeNamespaceStructure(fileContent: string, namespaceDecl: Matcher) returns (violations: seq<string>)
    ensures violations == StructureViolations(fileContent, |namespaceDecl(fileContent)|)
  {
    violations := [];
    var matches := namespaceDecl(fileContent);
    if |matches| == 0 {
      violations := violations + [NoDeclaration];
      return;
    }
    if |matches| > 1 {
      violations := violations + [MultipleDeclarations];
    }
    ghost var prefix := violations;

    var lines := Split(fileContent, '\n');
    var i := 0;
    while i < |lines|
      invariant 0 <= i <= |lines|
      invariant forall j | 0 <= j < i :: !IsSubstantive(lines[j])
      invariant violations == prefix
    {
      var trimmed := Trim(lines[i]);
      if IsSkipped(trimmed) {
        i := i + 1;
        continue;
      }
      if !StartsWith(trimmed, "namespace ") {
        violations := violations + [NotAtTop];
      }
      FirstIndexIs(lines, IsSubstantive, i);
      return;
    }
  }

  /**
   * The shape of the result: no declaration gives that one message alone;
   * otherwise the multiple-declarations message (present iff there is more
   * than one) comes first and the position message (present iff the first
   * substantive line is not a namespace declaration) second, so there are
   * at most two.
   */
  lemma StructureShape(fileContent: string, declarations: nat)
    ensures var r := StructureViolations(fileContent, declarations);
      var lines := Split(fileContent, '\n');
      var i := FirstIndex(lines, IsSubstantive);
      |r| <= 2 &&
      (declarations == 0 ==> r == [NoDeclaration]) &&
      (declarations > 0 ==> NoDeclaration !in r) &&
      (MultipleDeclarations in r <==> declarations > 1) &&
      (declarations > 1 ==> r[0] == MultipleDeclarations) &&
      (NotAtTop in r <==> declarations > 0 && i != -1 && !StartsWith(Trim(lines[i]), "namespace ")) &&
      (NotAtTop in r ==> r[|r| - 1] == NotAtTop)
  {
  }

  /** A file whose every line is blank or a comment opener gets no position message. */
  lemma AllSkippedNoPositionMessage(fileContent: string, declarations: nat)
    requires forall j | 0 <= j < |Split(fileContent, '\n')| :: IsSkipped(Trim(Split(fileContent, '\n')[j]))
    ensures NotAtTop !in StructureViolations(fileContent, declarations)
  {
  }
}
