/**
 * Analyzers/ClassAnalyzer.cs: the older coordinator, with three rules only
 * (namespace, documentation, naming) and the same filtering as TypeAnalyzer.
 * The recursive directory listing and File.ReadAllText become the `files`
 * input. The documentation rule (XmlDocAnalyzer) is not part of this model:
 * it is the uninterpreted `documentation` of the patterns, a function of the
 * text as line 40 calls it.
 */
module ClassAnalyzer {
  import opened Optional
  import opened Models
  import NamespaceAnalyzer
  import NamingRulesAnalyzer

  datatype ClassPatterns = ClassPatterns(
    namespaceLine: string -> Option<string>,  // NamespaceAnalyzer.cs line 48
    documentation: string -> seq<string>,
    naming: NamingRulesAnalyzer.NamingPatterns)

  /** Lines 37-38: the namespace error, only when the namespace is not valid. */
  function NamespaceErrors(f: SourceFile, projectPath: string, p: ClassPatterns): (r: seq<string>)
    requires projectPath != []
    ensures |r| <= 1
    ensures r == [] <==> NamespaceAnalyzer.AnalyzeNamespace(f.path, f.content, projectPath, p.namespaceLine).0
    ensures r != [] ==> r[0] != ""
  {
    var (valid, error) := NamespaceAnalyzer.AnalyzeNamespace(f.path, f.content, projectPath, p.namespaceLine);
    if !valid then [error] else []
  }

  /** The violations of one file, in the order of lines 37-41. */
  function FileViolations(f: SourceFile, projectPath: string, p: ClassPatterns): seq<string>
    requires projectPath != []
  {
    NamespaceErrors(f, projectPath, p)
    + p.documentation(f.content)
    + NamingRulesAnalyzer.NamingViolations(f.content, p.naming)
  }

  /** The violation list of each file. */
  function ViolationLists(files: seq<SourceFile>, projectPath: string, p: ClassPatterns): (lists: seq<seq<string>>)
    requires projectPath != []
    ensures |lists| == |files|
    ensures forall k | 0 <= k < |files| :: lists[k] == FileViolations(files[k], projectPath, p)
  {
    seq(|files|, k requires 0 <= k < |files| => FileViolations(files[k], projectPath, p))
  }

  /** The body of the loop of lines 31-52 up to the result check: one file's violations. */
  method AnalyzeFile(f: SourceFile, projectPath: string, p: ClassPatterns) returns (violations: seq<string>)
    requires projectPath != []
    ensures violations == FileViolations(f, projectPath, p)
  {
    violations := NamespaceErrors(f, projectPath, p);
    var naming := NamingRulesAnalyzer.AnalyzeNamingRules(f.content, p.naming);
    violations := violations + p.documentation(f.content) + naming;
  }

  /**
   * AnalyzeAllClasses (lines 26-55): one result per file with violations, in
   * file order, carrying its path and its violations and no alerts.
   */
  method AnalyzeAllClasses(files: seq<SourceFile>, projectPath: string, p: ClassPatterns)
    returns (results: seq<AnalysisResult>)
    requires projectPath != []
    ensures results == KeepNonEmpty(files, ViolationLists(files, projectPath, p))
    ensures |results| <= |files|
    ensures forall r | r in results :: r.violations != [] && r.alerts == []
  {
    ghost var lists := ViolationLists(files, projectPath, p);
    results := [];
    for k := 0 to |files|
      invariant results == KeepNonEmpty(files[..k], lists[..k])
      invariant |results| <= k
      invariant forall r | r in results :: r.violations != [] && r.alerts == []
    {
      var violations := AnalyzeFile(files[k], projectPath, p);
      if violations != [] {
        results := results + [AnalysisResult(files[k].path, violations, [])];
      }
      KeepNonEmptyStep(files, lists, k);
    }
    assert files[..|files|] == files && lists[..|lists|] == lists;
  }
}
