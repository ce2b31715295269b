/**
 * Analyzers/InheritanceRulesAnalyzer.cs: every public class the class pattern
 * finds is reported unless the FILE contains a public or protected virtual
 * method. The virtual-method test is made on the whole text, not on the class,
 * so one virtual method anywhere silences every class in the file. The
 * exclusion of `sealed` and `abstract` classes lives in the class pattern
 * (line 40), which is not interpreted here.
 */
module InheritanceRulesAnalyzer {
  import opened RegexModel
  import opened Collections

  datatype InheritancePatterns = InheritancePatterns(
    publicClass: Matcher,   // line 40; group 1 is the class name
    virtualMethod: Tester)  // line 43

  function ClassMessage(name: string): string {
    "Public class '" + name + "' must be sealed, abstract, or contain at least one virtual method."
  }

  /** The rule on one matched class, given whether the file has a virtual method. */
  function ClassCheck(hasVirtual: bool): Match -> seq<string> {
    m => if hasVirtual then [] else [ClassMessage(Group(m, 1))]
  }

  /** The messages of the analyzer, one pass over the class matches. */
  function InheritanceViolations(fileContent: string, p: InheritancePatterns): seq<string> {
    Collect(p.publicClass(fileContent), ClassCheck(p.virtualMethod(fileContent)))
  }

  /** AnalyzeInheritanceControl (lines 21-38): the loop over the class matches. */
  method AnalyzeInheritanceControl(fileContent: string, p: InheritancePatterns) returns (violations: seq<string>)
    ensures violations == InheritanceViolations(fileContent, p)
  {
    violations := [];
    var matches := p.publicClass(fileContent);
    for k := 0 to |matches|
      invariant violations == Collect(matches[..k], ClassCheck(p.virtualMethod(fileContent)))
    {
      var className := Group(matches[k], 1);
      var hasVirtual := p.virtualMethod(fileContent);
      if !hasVirtual {
        violations := violations + [ClassMessage(className)];
      }
      CollectStep(matches, ClassCheck(p.virtualMethod(fileContent)), k);
    }
    assert matches[..|matches|] == matches;
  }

  /** A virtual method anywhere in the file silences every class in it. */
  lemma VirtualMethodSilencesFile(fileContent: string, p: InheritancePatterns)
    requires p.virtualMethod(fileContent)
    ensures InheritanceViolations(fileContent, p) == []
  {
    CollectNone(p.publicClass(fileContent), ClassCheck(true));
  }

  /**
   * Without a virtual method in the file, every matched class is reported,
   * once, in match order, by the name the pattern captured.
   */
  lemma EveryClassReportedWithoutVirtual(fileContent: string, p: InheritancePatterns)
    requires !p.virtualMethod(fileContent)
    ensures |InheritanceViolations(fileContent, p)| == |p.publicClass(fileContent)|
    ensures forall k | 0 <= k < |p.publicClass(fileContent)| ::
      InheritanceViolations(fileContent, p)[k] == ClassMessage(Group(p.publicClass(fileContent)[k], 1))
  {
    CollectEach(p.publicClass(fileContent), ClassCheck(false));
  }
}
