/**
 * Analyzers/NamingRulesAnalyzer.cs: prefix rules on the names the four
 * patterns capture (fields, constants, local variables) and a case rule on
 * parameter names. The patterns of lines 31, 42, 53 and 64 are the four
 * matchers of NamingPatterns.
 */
module NamingRulesAnalyzer {
  import opened Text
  import opened RegexModel
  import opened Collections

  datatype NamingPatterns = NamingPatterns(
    field: Matcher,          // group 3 is the field name
    constant: Matcher,       // group 1 is the constant name
    localVariable: Matcher,  // group 2 is the variable name
    parameterList: Matcher)  // group 1 is the text between the parentheses

  function FieldMessage(name: string): string {
    "Global field '" + name + "' should start with 'g' or 'gc'."
  }

  function ConstantMessage(name: string): string {
    "Constant '" + name + "' should start with 'gc' (global) or '_c' (local)."
  }

  function LocalMessage(name: string): string {
    "Local variable '" + name + "' should start with '_'."
  }

  function ParameterMessage(name: string): string {
    "Parameter '" + name + "' should start with lowercase."
  }

  /** The field rule: the "gc" test is subsumed, so a field is reported exactly when its name does not start with "g". */
  function FieldCheck(m: Match): (r: seq<string>)
    ensures r == (if StartsWith(Group(m, 3), "g") then [] else [FieldMessage(Group(m, 3))])
  {
    var name := Group(m, 3);
    if !StartsWith(name, "g") && !StartsWith(name, "gc") then [FieldMessage(name)] else []
  }

  /** The constant rule: reported unless the name starts with "gc" or "_c". */
  function ConstantCheck(m: Match): seq<string> {
    var name := Group(m, 1);
    if !StartsWith(name, "gc") && !StartsWith(name, "_c") then [ConstantMessage(name)] else []
  }

  /** The local-variable rule: the "gc" test is subsumed, so a name is reported exactly when it starts with neither "_" nor "g". */
  function LocalCheck(m: Match): (r: seq<string>)
    ensures r == (if StartsWith(Group(m, 2), "_") || StartsWith(Group(m, 2), "g") then [] else [LocalMessage(Group(m, 2))])
  {
    var name := Group(m, 2);
    if !StartsWith(name, "_") && !StartsWith(name, "gc") && !StartsWith(name, "g") then [LocalMessage(name)] else []
  }

  /** The parameter rule on one comma-separated entry: at most one message comes of it. */
  function EntryCheck(entry: string): (r: seq<string>)
    ensures |r| <= 1
  {
    var parts := Split(Trim(entry), ' ');
    if |parts| == 2 then
      var name := parts[1];
      if name != [] && IsUpper(name[0]) then [ParameterMessage(name)] else []
    else []
  }

  /** The parameter rule on one parenthesised list: its entries are its comma-separated parts. */
  function ParameterListCheck(m: Match): seq<string> {
    Collect(Split(Group(m, 1), ','), EntryCheck)
  }

  /** The four rules' messages in the order the analyzer runs them, each in match order. */
  function NamingViolations(fileContent: string, p: NamingPatterns): seq<string> {
    Collect(p.field(fileContent), FieldCheck)
    + Collect(p.constant(fileContent), ConstantCheck)
    + Collect(p.localVariable(fileContent), LocalCheck)
    + Collect(p.parameterList(fileContent), ParameterListCheck)
  }

  /** AnalyzeNamingRules: the four loops, their messages in the order the loops run. */
  method AnalyzeNamingRules(fileContent: string, p: NamingPatterns) returns (violations: seq<string>)
    ensures violations == NamingViolations(fileContent, p)
  {
    var fields := FieldViolations(p.field(fileContent));
    var constants := ConstantViolations(p.constant(fileContent));
    var locals := LocalViolations(p.localVariable(fileContent));
    var parameters := ParameterViolations(p.parameterList(fileContent));
    violations := fields + constants + locals + parameters;
  }

  /** The loop of lines 32-39. */
  method FieldViolations(fieldMatches: seq<Match>) returns (violations: seq<string>)
    ensures violations == Collect(fieldMatches, FieldCheck)
  {
    violations := [];
    for k := 0 to |fieldMatches|
      invariant violations == Collect(fieldMatches[..k], FieldCheck)
    {
      var name := Group(fieldMatches[k], 3);
      if !StartsWith(name, "g") && !StartsWith(name, "gc") {
        violations := violations + [FieldMessage(name)];
      }
      CollectStep(fieldMatches, FieldCheck, k);
    }
    assert fieldMatches[..|fieldMatches|] == fieldMatches;
  }

  /** The loop of lines 43-50. */
  method ConstantViolations(constMatches: seq<Match>) returns (violations: seq<string>)
    ensures violations == Collect(constMatches, ConstantCheck)
  {
    violations := [];
    for k := 0 to |constMatches|
      invariant violations == Collect(constMatches[..k], ConstantCheck)
    {
      var name := Group(constMatches[k], 1);
      if !StartsWith(name, "gc") && !StartsWith(name, "_c") {
        violations := violations + [ConstantMessage(name)];
      }
      CollectStep(constMatches, ConstantCheck, k);
    }
    assert constMatches[..|constMatches|] == constMatches;
  }

  /** The loop of lines 54-61. */
  method LocalViolations(localMatches: seq<Match>) returns (violations: seq<string>)
    ensures violations == Collect(localMatches, LocalCheck)
  {
    violations := [];
    for k := 0 to |localMatches|
      invariant violations == Collect(localMatches[..k], LocalCheck)
    {
      var name := Group(localMatches[k], 2);
      if !StartsWith(name, "_") && !StartsWith(name, "gc") && !StartsWith(name, "g") {
        violations := violations + [LocalMessage(name)];
      }
      CollectStep(localMatches, LocalCheck, k);
    }
    assert localMatches[..|localMatches|] == localMatches;
  }

  /** The outer loop of lines 65-80, over the parenthesised lists. */
  method ParameterViolations(paramMatches: seq<Match>) returns (violations: seq<string>)
    ensures violations == Collect(paramMatches, ParameterListCheck)
  {
    violations := [];
    for k := 0 to |paramMatches|
      invariant violations == Collect(paramMatches[..k], ParameterListCheck)
    {
      var paramList := Split(Group(paramMatches[k], 1), ',');
      var entries := EntryViolations(paramList);
      violations := violations + entries;
      CollectStep(paramMatches, ParameterListCheck, k);
    }
    assert paramMatches[..|paramMatches|] == paramMatches;
  }

  /** The inner loop of lines 68-79, over the entries of one list. */
  method EntryViolations(paramList: seq<string>) returns (violations: seq<string>)
    ensures violations == Collect(paramList, EntryCheck)
  {
    violations := [];
    for j := 0 to |paramList|
      invariant violations == Collect(paramList[..j], EntryCheck)
    {
      var parts := Split(Trim(paramList[j]), ' ');
      if |parts| == 2 {
        var paramName := parts[1];
        if paramName != [] && IsUpper(paramName[0]) {
          violations := violations + [ParameterMessage(paramName)];
        }
      }
      CollectStep(paramList, EntryCheck, j);
    }
    assert paramList[..|paramList|] == paramList;
  }

  // ---- properties of the rules ----

  /** Messages built around a name determine that name. */
  lemma QuotedInjective(prefix: string, a: string, b: string, suffix: string)
    requires prefix + a + suffix == prefix + b + suffix
    ensures a == b
  {
    assert |a| == |b|;
    assert a == (prefix + a + suffix)[|prefix|..|prefix| + |a|];
    assert b == (prefix + b + suffix)[|prefix|..|prefix| + |b|];
  }

  /** A name starting with "gc" starts with "g". */
  lemma GcStartsWithG(name: string)
    requires StartsWith(name, "gc")
    ensures StartsWith(name, "g")
  {
    assert name[..1] == name[..2][..1];
  }

  /** A field is named in a message exactly when one of the matches captured it and it does not start with "g". */
  lemma FieldMessagesNameFailingFields(ms: seq<Match>, name: string)
    ensures FieldMessage(name) in Collect(ms, FieldCheck) <==>
      !StartsWith(name, "g") && exists k | 0 <= k < |ms| :: Group(ms[k], 3) == name
  {
    CollectMembership(ms, FieldCheck, FieldMessage(name));
    forall k | 0 <= k < |ms| && FieldMessage(name) in FieldCheck(ms[k]) ensures Group(ms[k], 3) == name {
      QuotedInjective("Global field '", name, Group(ms[k], 3), "' should start with 'g' or 'gc'.");
    }
    if !StartsWith(name, "g") && exists k | 0 <= k < |ms| :: Group(ms[k], 3) == name {
      var k :| 0 <= k < |ms| && Group(ms[k], 3) == name;
      assert FieldMessage(name) in FieldCheck(ms[k]);
    }
  }

  /** The constant rule is stricter than the field rule: a name with "g" but not "gc" in front, such as "gX", is reported. */
  lemma ConstantNeedsGc(m: Match)
    requires StartsWith(Group(m, 1), "g") && !StartsWith(Group(m, 1), "gc")
    ensures ConstantCheck(m) == [ConstantMessage(Group(m, 1))]
  {
    assert Group(m, 1)[..1] == "g";
  }

  /** The constant rule accepts exactly the names with a "gc" or "_c" prefix. */
  lemma ConstantMessagesNameFailingConstants(ms: seq<Match>, name: string)
    ensures ConstantMessage(name) in Collect(ms, ConstantCheck) <==>
      !StartsWith(name, "gc") && !StartsWith(name, "_c") && exists k | 0 <= k < |ms| :: Group(ms[k], 1) == name
  {
    CollectMembership(ms, ConstantCheck, ConstantMessage(name));
    forall k | 0 <= k < |ms| && ConstantMessage(name) in ConstantCheck(ms[k]) ensures Group(ms[k], 1) == name {
      QuotedInjective("Constant '", name, Group(ms[k], 1), "' should start with 'gc' (global) or '_c' (local).");
    }
    if !StartsWith(name, "gc") && !StartsWith(name, "_c") && exists k | 0 <= k < |ms| :: Group(ms[k], 1) == name {
      var k :| 0 <= k < |ms| && Group(ms[k], 1) == name;
      assert ConstantMessage(name) in ConstantCheck(ms[k]);
    }
  }

  /** A local variable is named in a message exactly when a match captured it and it starts with neither "_" nor "g". */
  lemma LocalMessagesNameFailingLocals(ms: seq<Match>, name: string)
    ensures LocalMessage(name) in Collect(ms, LocalCheck) <==>
      !StartsWith(name, "_") && !StartsWith(name, "g") && exists k | 0 <= k < |ms| :: Group(ms[k], 2) == name
  {
    CollectMembership(ms, LocalCheck, LocalMessage(name));
    forall k | 0 <= k < |ms| && LocalMessage(name) in LocalCheck(ms[k]) ensures Group(ms[k], 2) == name {
      QuotedInjective("Local variable '", name, Group(ms[k], 2), "' should start with '_'.");
    }
    if !StartsWith(name, "_") && !StartsWith(name, "g") && exists k | 0 <= k < |ms| :: Group(ms[k], 2) == name {
      var k :| 0 <= k < |ms| && Group(ms[k], 2) == name;
      assert LocalMessage(name) in LocalCheck(ms[k]);
    }
  }

  /**
   * An entry that trims to a type and a name separated by one space is
   * reported exactly when the name begins with an upper-case letter, and the
   * message names it.
   */
  lemma TypedEntryChecked(entry: string, typeName: string, name: string)
    requires Trim(entry) == typeName + " " + name
    requires ' ' !in typeName && ' ' !in name
    ensures EntryCheck(entry) == (if name != [] && IsUpper(name[0]) then [ParameterMessage(name)] else [])
  {
    SplitPrefix(typeName, name, ' ');
    SplitWhole(name, ' ');
  }

  /** Only an entry whose trimmed text has exactly one space, and so splits into two parts, can be reported. */
  lemma OnlyTwoPartEntriesChecked(entry: string)
    requires EntryCheck(entry) != []
    ensures Count(Trim(entry), ' ') == 1
  {
    SplitCount(Trim(entry), ' ');
  }

  /** Each rule reports at most once per match, and per parameter entry. */
  lemma AtMostOnePerMatch(fileContent: string, p: NamingPatterns)
    ensures |Collect(p.field(fileContent), FieldCheck)| <= |p.field(fileContent)|
    ensures |Collect(p.constant(fileContent), ConstantCheck)| <= |p.constant(fileContent)|
    ensures |Collect(p.localVariable(fileContent), LocalCheck)| <= |p.localVariable(fileContent)|
    ensures forall m :: |ParameterListCheck(m)| <= |Split(Group(m, 1), ',')|
  {
    CollectAtMostOne(p.field(fileContent), FieldCheck);
    CollectAtMostOne(p.constant(fileContent), ConstantCheck);
    CollectAtMostOne(p.localVariable(fileContent), LocalCheck);
    forall m ensures |ParameterListCheck(m)| <= |Split(Group(m, 1), ',')| {
      CollectAtMostOne(Split(Group(m, 1), ','), EntryCheck);
    }
  }
}
