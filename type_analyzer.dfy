/**
 * Analyzers/TypeAnalyzer.cs: the coordinator that runs every rule on every
 * source file and keeps a result for each file with at least one violation.
 * The file enumeration and File.ReadAllText become the `files` input (path and
 * text, in enumeration order). The documentation rule (XmlDocAnalyzer) is not
 * part of this model: it is the uninterpreted `documentation` of the patterns,
 * a function of the text and the project type as line 40 calls it.
 */
module TypeAnalyzer {
  import opened Optional
  import opened RegexModel
  import opened Models
  import NamespaceAnalyzer
  import NamespaceStructureAnalyzer
  import NamingRulesAnalyzer
  import InheritanceRulesAnalyzer
  import ImplementationAnalyzer

  datatype TypePatterns = TypePatterns(
    namespaceLine: string -> Option<string>,       // NamespaceAnalyzer.cs line 48
    namespaceDecl: Matcher,                        // NamespaceStructureAnalyzer.cs line 24
    documentation: (string, ProjectType) -> seq<string>,
    naming: NamingRulesAnalyzer.NamingPatterns,
    inheritance: InheritanceRulesAnalyzer.InheritancePatterns,
    implementation: ImplementationAnalyzer.ImplementationPatterns)

  /** Lines 34-35: the namespace error, only when the namespace is not valid. */
  function NamespaceErrors(f: SourceFile, projectPath: string, p: TypePatterns): (r: seq<string>)
    requires projectPath != []
    ensures |r| <= 1
    ensures r == [] <==> NamespaceAnalyzer.AnalyzeNamespace(f.path, f.content, projectPath, p.namespaceLine).0
    ensures r != [] ==> r[0] != ""
  {
    var (valid, error) := NamespaceAnalyzer.AnalyzeNamespace(f.path, f.content, projectPath, p.namespaceLine);
    if !valid then [error] else []
  }

  /** The violations of one file, in the order of lines 34-47. */
  function FileViolations(f: SourceFile, projectPath: string, projectType: ProjectType, p: TypePatterns): seq<string>
    requires projectPath != []
  {
    NamespaceErrors(f, projectPath, p)
    + NamespaceStructureAnalyzer.StructureViolations(f.content, |p.namespaceDecl(f.content)|)
    + p.documentation(f.content, projectType)
    + NamingRulesAnalyzer.NamingViolations(f.content, p.naming)
    + InheritanceRulesAnalyzer.InheritanceViolations(f.content, p.inheritance)
    + ImplementationAnalyzer.ImplementationViolations(f.content, p.implementation)
  }

  /** The violation list of each file. */
  function ViolationLists(files: seq<SourceFile>, projectPath: string, projectType: ProjectType, p: TypePatterns)
    : (lists: seq<seq<string>>)
    requires projectPath != []
    ensures |lists| == |files|
    ensures forall k | 0 <= k < |files| :: lists[k] == FileViolations(files[k], projectPath, projectType, p)
  {
    seq(|files|, k requires 0 <= k < |files| => FileViolations(files[k], projectPath, projectType, p))
  }

  /** The body of the loop of lines 28-57 up to the result check: one file's violations. */
  method AnalyzeFile(f: SourceFile, projectPath: string, projectType: ProjectType, p: TypePatterns)
    returns (violations: seq<string>)
    requires projectPath != []
    ensures violations == FileViolations(f, projectPath, projectType, p)
  {
    violations := NamespaceErrors(f, projectPath, p);
    var structure := NamespaceStructureAnalyzer.AnalyzeNamespaceStructure(f.content, p.namespaceDecl);
    var naming := NamingRulesAnalyzer.AnalyzeNamingRules(f.content, p.naming);
    var inheritance := InheritanceRulesAnalyzer.AnalyzeInheritanceControl(f.content, p.inheritance);
    var implementation := ImplementationAnalyzer.AnalyzeImplementation(f.content, p.implementation);
    violations := violations + structure + p.documentation(f.content, projectType) + naming + inheritance + implementation;
  }

  /**
   * AnalyzeAllTypes (lines 23-60): one result per file with violations, in
   * file order, carrying its path and its violations and no alerts.
   */
  method AnalyzeAllTypes(files: seq<SourceFile>, projectPath: string, projectType: ProjectType, p: TypePatterns)
    returns (results: seq<AnalysisResult>)
    requires projectPath != []
    ensures results == KeepNonEmpty(files, ViolationLists(files, projectPath, projectType, p))
    ensures |results| <= |files|
    ensures forall r | r in results :: r.violations != [] && r.alerts == []
  {
    ghost var lists := ViolationLists(files, projectPath, projectType, p);
    results := [];
    for k := 0 to |files|
      invariant results == KeepNonEmpty(files[..k], lists[..k])
      invariant |results| <= k
      invariant forall r | r in results :: r.violations != [] && r.alerts == []
    {
      var violations := AnalyzeFile(files[k], projectPath, projectType, p);
      if |violations| > 0 {
        results := results + [AnalysisResult(files[k].path, violations, [])];
      }
      KeepNonEmptyStep(files, lists, k);
    }
    assert files[..|files|] == files && lists[..|lists|] == lists;
  }
}
