/**
 * Analyzers/ImplementationAnalyzer.cs: eight implementation checks whose
 * messages are concatenated in a fixed order. Each check walks the matches of
 * its pattern; three of them (long methods, unused parameters, missing
 * returns) first find where the method's block ends with the brace scan of
 * BraceScan, started at the match index.
 *
 * The patterns of lines 252-289, and the two patterns built at run time
 * (the type-body pattern of line 39 and the whole-word pattern of lines 146
 * and 176), are the uninterpreted values of ImplementationPatterns.
 */
module ImplementationAnalyzer {
  import opened Text
  import opened Optional
  import opened RegexModel
  import opened Collections
  import opened BraceScan

  datatype ImplementationPatterns = ImplementationPatterns(
    typeDecl: Matcher,                          // line 252; group 2 the kind, group 3 the name
    typeBody: (string, string) -> Option<string>, // lines 39-40: (match text, content) to group 1 of the body match
    exposedMember: Tester,                      // line 255
    publicMethod: Matcher,                      // line 258; group 2 the name, group 3 the body
    commentOnly: Tester,                        // line 261
    notImplemented: Tester,                     // line 264
    uselessReturn: Tester,                      // line 267
    anyMethod: Matcher,                         // line 270; group 2 the name
    methodWithParams: Matcher,                  // line 273; group 2 the name, group 3 the parameter list
    catchEmpty: Tester,                         // line 276
    globalField: Matcher,                       // line 279; group 2 the name
    publicCtor: Matcher,                        // line 282; group 1 the class, group 2 the body
    returnableMethod: Matcher,                  // line 285; group 2 the return type, group 3 the name
    returnKeyword: Tester,                      // line 288
    word: string -> Matcher)                    // lines 146 and 176: the whole-word pattern for a name

  // ---- messages ----

  function EmptyTypeMessage(kind: string, name: string): string {
    kind + " '" + name + "' is public/protected but exposes no members."
  }

  function UselessMethodMessage(name: string): string {
    "Public method '" + name + "' has no meaningful implementation."
  }

  function LongMethodMessage(name: string, lineCount: nat): string {
    "Method '" + name + "' is too long (" + NatToString(lineCount) + " lines). Consider splitting or refactoring."
  }

  function UnusedParameterMessage(name: string, methodName: string): string {
    "Parameter '" + name + "' in method '" + methodName + "' is never used."
  }

  const EmptyCatchMessage := "Empty or silent catch block detected. Consider logging or rethrowing."

  function UnusedFieldMessage(name: string): string {
    "Global field '" + name + "' is declared but never used."
  }

  function EmptyConstructorMessage(className: string): string {
    "Public constructor for '" + className + "' is empty."
  }

  function MissingReturnMessage(name: string, returnType: string): string {
    "Method '" + name + "' declares return type '" + returnType + "' but may exit without returning."
  }

  /** The longest block, in lines, that is not reported. */
  const MaxMethodLines := 50

  // ---- the rule on one match ----

  /** Empty public types (lines 38-48): the body the run-time pattern finds exposes no member. */
  function EmptyTypeMessages(content: string, p: ImplementationPatterns, m: Match): seq<string> {
    match p.typeBody(Group(m, 0), content)
    case None => []
    case Some(body) => if !p.exposedMember(body) then [EmptyTypeMessage(Group(m, 2), Group(m, 3))] else []
  }

  /** Useless public methods (lines 61-70): the trimmed body is blank, comment-only, a NotImplementedException or a trivial return. */
  function UselessMethodMessages(p: ImplementationPatterns, m: Match): (r: seq<string>)
    ensures |r| <= 1
    ensures IsNullOrWhiteSpace(Group(m, 3)) ==> r == [UselessMethodMessage(Group(m, 2))]
  {
    var body := Trim(Group(m, 3));
    if IsNullOrWhiteSpace(body) || p.commentOnly(body) || p.notImplemented(body) || p.uselessReturn(body)
    then [UselessMethodMessage(Group(m, 2))]
    else []
  }

  /** Long methods (lines 83-107): the scanned block has more than MaxMethodLines lines. */
  function LongMethodMessages(content: string, m: Match): seq<string> {
    var start := m.index;
    var end := BlockEnd(content, start);
    if end > start then
      var lineCount := |Split(content[start..end], '\n')|;
      if lineCount > MaxMethodLines then [LongMethodMessage(Group(m, 2), lineCount)] else []
    else []
  }

  /** The parameter name of one comma-separated entry: the last space-separated token of the trimmed entry. */
  function ParamName(entry: string): string {
    Last(Split(Trim(entry), ' '))
  }

  /** Unused parameters, one entry (lines 144-149): a non-blank name that never occurs as a whole word in the block. */
  function ParamMessages(body: string, methodName: string, word: string -> Matcher, entry: string): seq<string> {
    var name := ParamName(entry);
    if !IsNullOrWhiteSpace(name) && |word(name)(body)| == 0 then [UnusedParameterMessage(name, methodName)] else []
  }

  function ParamCheck(body: string, methodName: string, word: string -> Matcher): string -> seq<string> {
    entry => ParamMessages(body, methodName, word, entry)
  }

  /** Unused parameters, one method (lines 120-151): the entries are checked only when the scan finds a block. */
  function UnusedParamMessages(content: string, p: ImplementationPatterns, m: Match): seq<string> {
    var start := m.index;
    var end := BlockEnd(content, start);
    if end > start then Collect(Split(Group(m, 3), ','), ParamCheck(content[start..end], Group(m, 2), p.word))
    else []
  }

  /** Unused fields (lines 175-181): the name occurs at most once as a whole word in the file. */
  function UnusedFieldMessages(content: string, p: ImplementationPatterns, m: Match): seq<string> {
    var name := Group(m, 2);
    if |p.word(name)(content)| <= 1 then [UnusedFieldMessage(name)] else []
  }

  /** Empty public constructors (lines 194-200): the body is blank or comment-only. */
  function EmptyConstructorMessages(p: ImplementationPatterns, m: Match): (r: seq<string>)
    ensures |r| <= 1
    ensures IsNullOrWhiteSpace(Group(m, 2)) ==> r == [EmptyConstructorMessage(Group(m, 1))]
  {
    var body := Group(m, 2);
    if IsNullOrWhiteSpace(body) || p.commentOnly(body) then [EmptyConstructorMessage(Group(m, 1))] else []
  }

  /** The return types the missing-return rule leaves alone (line 216). */
  predicate IsExemptReturnType(returnType: string) {
    returnType == "void" || returnType == "Task" || StartsWith(returnType, "Task<")
  }

  /** Missing returns (lines 213-242): a non-exempt method whose scanned block has no `return` keyword. */
  function MissingReturnMessages(content: string, p: ImplementationPatterns, m: Match): seq<string> {
    var returnType := Group(m, 2);
    if IsExemptReturnType(returnType) then []
    else
      var start := m.index;
      var end := BlockEnd(content, start);
      if end > start && !p.returnKeyword(content[start..end]) then [MissingReturnMessage(Group(m, 3), returnType)]
      else []
  }

  // ---- the rules over all matches ----

  function EmptyTypeCheck(content: string, p: ImplementationPatterns): Match -> seq<string> {
    m => EmptyTypeMessages(content, p, m)
  }

  function UselessMethodCheck(p: ImplementationPatterns): Match -> seq<string> {
    m => UselessMethodMessages(p, m)
  }

  function LongMethodCheck(content: string): Match -> seq<string> {
    m => LongMethodMessages(content, m)
  }

  function UnusedParamCheck(content: string, p: ImplementationPatterns): Match -> seq<string> {
    m => UnusedParamMessages(content, p, m)
  }

  function UnusedFieldCheck(content: string, p: ImplementationPatterns): Match -> seq<string> {
    m => UnusedFieldMessages(content, p, m)
  }

  function EmptyConstructorCheck(p: ImplementationPatterns): Match -> seq<string> {
    m => EmptyConstructorMessages(p, m)
  }

  function MissingReturnCheck(content: string, p: ImplementationPatterns): Match -> seq<string> {
    m => MissingReturnMessages(content, p, m)
  }

  function EmptyTypeViolations(content: string, p: ImplementationPatterns): seq<string> {
    Collect(p.typeDecl(content), EmptyTypeCheck(content, p))
  }

  function UselessMethodViolations(content: string, p: ImplementationPatterns): seq<string> {
    Collect(p.publicMethod(content), UselessMethodCheck(p))
  }

  function LongMethodViolations(content: string, p: ImplementationPatterns): seq<string> {
    Collect(p.anyMethod(content), LongMethodCheck(content))
  }

  function UnusedParameterViolations(content: string, p: ImplementationPatterns): seq<string> {
    Collect(p.methodWithParams(content), UnusedParamCheck(content, p))
  }

  /** DetectEmptyCatchBlocks (lines 157-166): one message at most, however many empty catch blocks there are. */
  function EmptyCatchViolations(content: string, p: ImplementationPatterns): (r: seq<string>)
    ensures |r| <= 1
    ensures r != [] <==> p.catchEmpty(content)
    ensures r != [] ==> r == [EmptyCatchMessage]
  {
    if p.catchEmpty(content) then [EmptyCatchMessage] else []
  }

  function UnusedFieldViolations(content: string, p: ImplementationPatterns): seq<string> {
    Collect(p.globalField(content), UnusedFieldCheck(content, p))
  }

  function EmptyConstructorViolations(content: string, p: ImplementationPatterns): seq<string> {
    Collect(p.publicCtor(content), EmptyConstructorCheck(p))
  }

  function MissingReturnViolations(content: string, p: ImplementationPatterns): seq<string> {
    Collect(p.returnableMethod(content), MissingReturnCheck(content, p))
  }

  /** The eight checks' messages in the order AnalyzeImplementation adds them. */
  function ImplementationViolations(content: string, p: ImplementationPatterns): seq<string> {
    EmptyTypeViolations(content, p)
    + UselessMethodViolations(content, p)
    + LongMethodViolations(content, p)
    + UnusedParameterViolations(content, p)
    + EmptyCatchViolations(content, p)
    + UnusedFieldViolations(content, p)
    + EmptyConstructorViolations(content, p)
    + MissingReturnViolations(content, p)
  }

  // ---- the analyzer ----

  /** AnalyzeImplementation (lines 15-29). */
  method AnalyzeImplementation(content: string, p: ImplementationPatterns) returns (violations: seq<string>)
    ensures violations == ImplementationViolations(content, p)
  {
    var emptyTypes := DetectEmptyPublicTypes(content, p);
    var uselessMethods := DetectUselessPublicMethods(content, p);
    var longMethods := DetectLongMethods(content, p);
    var unusedParameters := DetectUnusedParameters(content, p);
    var emptyCatches := EmptyCatchViolations(content, p);
    var unusedFields := DetectUnusedFields(content, p);
    var emptyConstructors := DetectEmptyPublicConstructors(content, p);
    var missingReturns := DetectMissingReturnStatements(content, p);
    violations := emptyTypes + uselessMethods + longMethods + unusedParameters
      + emptyCatches + unusedFields + emptyConstructors + missingReturns;
  }

  /** DetectEmptyPublicTypes (lines 31-52). */
  method DetectEmptyPublicTypes(content: string, p: ImplementationPatterns) returns (violations: seq<string>)
    ensures violations == EmptyTypeViolations(content, p)
  {
    violations := [];
    var matches := p.typeDecl(content);
    for k := 0 to |matches|
      invariant violations == Collect(matches[..k], EmptyTypeCheck(content, p))
    {
      var m := matches[k];
      var name := Group(m, 3);
      var bodyMatch := p.typeBody(Group(m, 0), content);
      if bodyMatch.Some? {
        var body := bodyMatch.value;
        if !p.exposedMember(body) {
          violations := violations + [EmptyTypeMessage(Group(m, 2), name)];
        }
      }
      CollectStep(matches, EmptyTypeCheck(content, p), k);
    }
    assert matches[..|matches|] == matches;
  }

  /** DetectUselessPublicMethods (lines 54-74). */
  method DetectUselessPublicMethods(content: string, p: ImplementationPatterns) returns (violations: seq<string>)
    ensures violations == UselessMethodViolations(content, p)
  {
    violations := [];
    var matches := p.publicMethod(content);
    for k := 0 to |matches|
      invariant violations == Collect(matches[..k], UselessMethodCheck(p))
    {
      var m := matches[k];
      var methodName := Group(m, 2);
      var body := Trim(Group(m, 3));
      if IsNullOrWhiteSpace(body) || p.commentOnly(body) || p.notImplemented(body) || p.uselessReturn(body) {
        violations := violations + [UselessMethodMessage(methodName)];
      }
      CollectStep(matches, UselessMethodCheck(p), k);
    }
    assert matches[..|matches|] == matches;
  }

  /** DetectLongMethods (lines 76-111). */
  method DetectLongMethods(content: string, p: ImplementationPatterns) returns (violations: seq<string>)
    ensures violations == LongMethodViolations(content, p)
  {
    violations := [];
    var matches := p.anyMethod(content);
    for k := 0 to |matches|
      invariant violations == Collect(matches[..k], LongMethodCheck(content))
    {
      var m := matches[k];
      var startIndex := m.index;
      var endIndex := ScanBlockEnd(content, startIndex);
      if endIndex > startIndex {
        var methodBlock := content[startIndex..endIndex];
        var lineCount := |Split(methodBlock, '\n')|;
        if lineCount > MaxMethodLines {
          violations := violations + [LongMethodMessage(Group(m, 2), lineCount)];
        }
      }
      CollectStep(matches, LongMethodCheck(content), k);
    }
    assert matches[..|matches|] == matches;
  }

  /** DetectUnusedParameters (lines 113-155). */
  method DetectUnusedParameters(content: string, p: ImplementationPatterns) returns (violations: seq<string>)
    ensures violations == UnusedParameterViolations(content, p)
  {
    violations := [];
    var matches := p.methodWithParams(content);
    for k := 0 to |matches|
      invariant violations == Collect(matches[..k], UnusedParamCheck(content, p))
    {
      var m := matches[k];
      var methodName := Group(m, 2);
      var params := Split(Group(m, 3), ',');
      var bodyEnd := ScanBlockEnd(content, m.index);
      if bodyEnd > m.index {
        var methodBody := content[m.index..bodyEnd];
        var unused := UnusedInBody(params, methodBody, methodName, p.word);
        violations := violations + unused;
      }
      CollectStep(matches, UnusedParamCheck(content, p), k);
    }
    assert matches[..|matches|] == matches;
  }

  /** The inner loop of lines 142-150, over the parameter entries of one method. */
  method UnusedInBody(params: seq<string>, methodBody: string, methodName: string, word: string -> Matcher)
    returns (violations: seq<string>)
    ensures violations == Collect(params, ParamCheck(methodBody, methodName, word))
  {
    violations := [];
    for k := 0 to |params|
      invariant violations == Collect(params[..k], ParamCheck(methodBody, methodName, word))
    {
      var name := Last(Split(Trim(params[k]), ' '));
      if !IsNullOrWhiteSpace(name) && |word(name)(methodBody)| == 0 {
        violations := violations + [UnusedParameterMessage(name, methodName)];
      }
      CollectStep(params, ParamCheck(methodBody, methodName, word), k);
    }
    assert params[..|params|] == params;
  }

  /** DetectUnusedFields (lines 168-185). */
  method DetectUnusedFields(content: string, p: ImplementationPatterns) returns (violations: seq<string>)
    ensures violations == UnusedFieldViolations(content, p)
  {
    violations := [];
    var matches := p.globalField(content);
    for k := 0 to |matches|
      invariant violations == Collect(matches[..k], UnusedFieldCheck(content, p))
    {
      var fieldName := Group(matches[k], 2);
      var references := p.word(fieldName)(content);
      if |references| <= 1 {
        violations := violations + [UnusedFieldMessage(fieldName)];
      }
      CollectStep(matches, UnusedFieldCheck(content, p), k);
    }
    assert matches[..|matches|] == matches;
  }

  /** DetectEmptyPublicConstructors (lines 187-204). */
  method DetectEmptyPublicConstructors(content: string, p: ImplementationPatterns) returns (violations: seq<string>)
    ensures violations == EmptyConstructorViolations(content, p)
  {
    violations := [];
    var matches := p.publicCtor(content);
    for k := 0 to |matches|
      invariant violations == Collect(matches[..k], EmptyConstructorCheck(p))
    {
      var className := Group(matches[k], 1);
      var body := Group(matches[k], 2);
      if IsNullOrWhiteSpace(body) || p.commentOnly(body) {
        violations := violations + [EmptyConstructorMessage(className)];
      }
      CollectStep(matches, EmptyConstructorCheck(p), k);
    }
    assert matches[..|matches|] == matches;
  }

  /** DetectMissingReturnStatements (lines 206-246). */
  method DetectMissingReturnStatements(content: string, p: ImplementationPatterns) returns (violations: seq<string>)
    ensures violations == MissingReturnViolations(content, p)
  {
    violations := [];
    var matches := p.returnableMethod(content);
    for k := 0 to |matches|
      invariant violations == Collect(matches[..k], MissingReturnCheck(content, p))
    {
      var m := matches[k];
      var returnType := Group(m, 2);
      var methodName := Group(m, 3);
      CollectStep(matches, MissingReturnCheck(content, p), k);
      if returnType == "void" || returnType == "Task" || StartsWith(returnType, "Task<") {
        continue;
      }
      var startIndex := m.index;
      var endIndex := ScanBlockEnd(content, startIndex);
      if endIndex > startIndex {
        var methodBody := content[startIndex..endIndex];
        if !p.returnKeyword(methodBody) {
          violations := violations + [MissingReturnMessage(methodName, returnType)];
        }
      }
    }
    assert matches[..|matches|] == matches;
  }

  // ---- where the brace scan starts ----

  const AccessKeywords: seq<string> := ["public", "protected", "private", "internal"]

  /** Position `i` of the text opens with an access keyword, as every match of the three method patterns does. */
  predicate AtAccessKeyword(content: string, i: nat) {
    i <= |content| && exists kw | kw in AccessKeywords :: StartsWith(content[i..], kw)
  }

  /** An access keyword starts with a letter, not a brace. */
  lemma AccessKeywordIsNotBrace(content: string, i: nat)
    requires AtAccessKeyword(content, i)
    ensures i < |content| && content[i] != '{' && content[i] != '}'
  {
    var kw :| kw in AccessKeywords && StartsWith(content[i..], kw);
    assert content[i..][..|kw|][0] == content[i];
  }

  /**
   * A scan started on anything but a brace finds no block, so the three
   * checks that rely on it report nothing for that match.
   */
  lemma NonBraceStartSilences(content: string, p: ImplementationPatterns, m: Match)
    requires m.index < |content| ==> content[m.index] != '{' && content[m.index] != '}'
    ensures BlockEnd(content, m.index) <= m.index
    ensures LongMethodMessages(content, m) == []
    ensures UnusedParamMessages(content, p, m) == []
    ensures MissingReturnMessages(content, p, m) == []
  {
    if m.index < |content| {
      ScanStopsAtNonBrace(content, m.index);
    }
  }

  /**
   * The brace scan starts at the access keyword, not at the method's `{`, so
   * as long as every match of the three method patterns starts at an access
   * keyword, the long-method, unused-parameter and missing-return checks never
   * report, and the analysis reduces to the other five checks.
   */
  lemma ScanChecksNeverReport(content: string, p: ImplementationPatterns)
    requires forall m | m in p.anyMethod(content) :: AtAccessKeyword(content, m.index)
    requires forall m | m in p.methodWithParams(content) :: AtAccessKeyword(content, m.index)
    requires forall m | m in p.returnableMethod(content) :: AtAccessKeyword(content, m.index)
    ensures LongMethodViolations(content, p) == []
    ensures UnusedParameterViolations(content, p) == []
    ensures MissingReturnViolations(content, p) == []
    ensures ImplementationViolations(content, p) ==
      EmptyTypeViolations(content, p) + UselessMethodViolations(content, p) + EmptyCatchViolations(content, p)
      + UnusedFieldViolations(content, p) + EmptyConstructorViolations(content, p)
  {
    forall m | m in p.anyMethod(content) ensures LongMethodMessages(content, m) == [] {
      AccessKeywordIsNotBrace(content, m.index);
      NonBraceStartSilences(content, p, m);
    }
    forall m | m in p.methodWithParams(content) ensures UnusedParamMessages(content, p, m) == [] {
      AccessKeywordIsNotBrace(content, m.index);
      NonBraceStartSilences(content, p, m);
    }
    forall m | m in p.returnableMethod(content) ensures MissingReturnMessages(content, p, m) == [] {
      AccessKeywordIsNotBrace(content, m.index);
      NonBraceStartSilences(content, p, m);
    }
    CollectNone(p.anyMethod(content), LongMethodCheck(content));
    CollectNone(p.methodWithParams(content), UnusedParamCheck(content, p));
    CollectNone(p.returnableMethod(content), MissingReturnCheck(content, p));
  }

  // ---- the individual rules ----

  /**
   * Once the scan finds a block, its line count is its number of newlines
   * plus one, and the method is reported, with that count, exactly when the
   * count exceeds MaxMethodLines.
   */
  lemma LongMethodThreshold(content: string, m: Match)
    requires BlockEnd(content, m.index) > m.index
    ensures var n := Count(content[m.index..BlockEnd(content, m.index)], '\n') + 1;
      LongMethodMessages(content, m) == if n > MaxMethodLines then [LongMethodMessage(Group(m, 2), n)] else []
  {
    SplitCount(content[m.index..BlockEnd(content, m.index)], '\n');
  }

  /** Every missing-return message names a matched method whose return type is not exempt. */
  lemma MissingReturnOnlyNonExempt(content: string, p: ImplementationPatterns, x: string)
    requires x in MissingReturnViolations(content, p)
    ensures exists m | m in p.returnableMethod(content) ::
      !IsExemptReturnType(Group(m, 2)) && x == MissingReturnMessage(Group(m, 3), Group(m, 2))
  {
    var ms := p.returnableMethod(content);
    CollectMembership(ms, MissingReturnCheck(content, p), x);
    var k :| 0 <= k < |ms| && x in MissingReturnMessages(content, p, ms[k]);
    assert ms[k] in ms;
  }

  /** A file whose returnable methods all have exempt return types gets no missing-return message. */
  lemma ExemptReturnTypesSilent(content: string, p: ImplementationPatterns)
    requires forall m | m in p.returnableMethod(content) :: IsExemptReturnType(Group(m, 2))
    ensures MissingReturnViolations(content, p) == []
  {
    var ms := p.returnableMethod(content);
    assert forall k | 0 <= k < |ms| :: ms[k] in ms;
    CollectNone(ms, MissingReturnCheck(content, p));
  }

  /** There is at most one unused-field message per field matched. */
  lemma UnusedFieldsAtMostOnePerField(content: string, p: ImplementationPatterns)
    ensures |UnusedFieldViolations(content, p)| <= |p.globalField(content)|
  {
    CollectAtMostOne(p.globalField(content), UnusedFieldCheck(content, p));
  }

  /**
   * An unused-field message is produced exactly for a matched field whose name
   * occurs at most once as a whole word in the whole file.
   */
  lemma UnusedFieldsExactly(content: string, p: ImplementationPatterns, x: string)
    ensures x in UnusedFieldViolations(content, p) <==>
      exists m | m in p.globalField(content) ::
        |p.word(Group(m, 2))(content)| <= 1 && x == UnusedFieldMessage(Group(m, 2))
  {
    var ms := p.globalField(content);
    CollectMembership(ms, UnusedFieldCheck(content, p), x);
    if x in UnusedFieldViolations(content, p) {
      var k :| 0 <= k < |ms| && x in UnusedFieldMessages(content, p, ms[k]);
      assert ms[k] in ms;
    }
    if exists m | m in ms :: |p.word(Group(m, 2))(content)| <= 1 && x == UnusedFieldMessage(Group(m, 2)) {
      var m :| m in ms && |p.word(Group(m, 2))(content)| <= 1 && x == UnusedFieldMessage(Group(m, 2));
      var k :| 0 <= k < |ms| && ms[k] == m;
      assert x in UnusedFieldMessages(content, p, ms[k]);
    }
  }

  /** The parameter name is the token after the last space of the trimmed entry ("int count" gives "count"). */
  lemma ParamNameIsLastToken(entry: string, typeText: string, name: string)
    requires Trim(entry) == typeText + [' '] + name
    requires ' ' !in name
    ensures ParamName(entry) == name
  {
    SplitLast(typeText, name, ' ');
  }

  /** An entry without a space is its own name. */
  lemma ParamNameWithoutSpace(entry: string)
    requires ' ' !in Trim(entry)
    ensures ParamName(entry) == Trim(entry)
  {
    SplitWhole(Trim(entry), ' ');
  }

  /** Over the entries of one method: at most one message per entry. */
  lemma UnusedParamsAtMostOnePerEntry(entries: seq<string>, body: string, methodName: string, word: string -> Matcher)
    ensures |Collect(entries, ParamCheck(body, methodName, word))| <= |entries|
  {
    CollectAtMostOne(entries, ParamCheck(body, methodName, word));
  }

  /**
   * Over the entries of one method: a message exactly for an entry whose name
   * is not blank and does not occur as a whole word in the block; blank names
   * (an empty parameter list, a trailing comma) are skipped.
   */
  lemma UnusedParamsExactly(entries: seq<string>, body: string, methodName: string, word: string -> Matcher, x: string)
    ensures x in Collect(entries, ParamCheck(body, methodName, word)) <==>
      exists e | e in entries ::
        !IsNullOrWhiteSpace(ParamName(e)) && |word(ParamName(e))(body)| == 0 &&
        x == UnusedParameterMessage(ParamName(e), methodName)
  {
    var check := ParamCheck(body, methodName, word);
    CollectMembership(entries, check, x);
    if x in Collect(entries, check) {
      var k :| 0 <= k < |entries| && x in ParamMessages(body, methodName, word, entries[k]);
      assert entries[k] in entries;
    }
    if exists e | e in entries :: !IsNullOrWhiteSpace(ParamName(e)) && |word(ParamName(e))(body)| == 0 &&
        x == UnusedParameterMessage(ParamName(e), methodName) {
      var e :| e in entries && !IsNullOrWhiteSpace(ParamName(e)) && |word(ParamName(e))(body)| == 0 &&
        x == UnusedParameterMessage(ParamName(e), methodName);
      var k :| 0 <= k < |entries| && entries[k] == e;
      assert x in ParamMessages(body, methodName, word, entries[k]);
    }
  }
}
