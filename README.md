# SOLTEC.CodeAnalyzer rule engine in Dafny

This is a model of the rule engine of SOLTEC.CodeAnalyzer. The tool is a style checker for C# source files, and it works on the raw text of each file. The model covers:

- **ImplementationAnalyzer**: eight implementation-quality checks. Three of them first find where a method block ends, using a brace-depth scan.
- **NamespaceStructureAnalyzer**: the file must declare exactly one namespace, on its first substantive line.
- **NamespaceAnalyzer**: the expected namespace is derived from the file path and compared with the first `namespace` line.
- **NamingRulesAnalyzer**: prefix rules for fields, constants and local variables, and a case rule for parameters.
- **InheritanceRulesAnalyzer**: a public class must be sealed or abstract, or the file must contain a virtual method.
- **ParameterValidator**: the command-line argument loop and the checks that follow it.
- **ProjectTypeDetector**: the project type is read from the markers in a `.csproj` manifest.
- **TypeAnalyzer** and **ClassAnalyzer**: the two coordinators. Each runs the rules on every file and keeps a result for each file that has violations.

Regular expressions are not interpreted. Each pattern is an uninterpreted function of the text it is applied to (`RegexModel.Matcher`, `RegexModel.Tester`), bundled per analyzer in a patterns datatype. The model then states exactly what the code does with the match records: group values, match indexes, match counts and match order.

Every loop of the source is a method, and each is proved against a specification function:

- the `foreach`/`Add` loops are `Collections.Collect`;
- the brace scan is `BraceScan.BlockEnd`;
- the argument loop is `ParameterValidator.Parse`;
- the coordinators' result filtering is `Models.KeepNonEmpty`.

The properties the code promises are lemmas about those functions. Pure code is written as functions: the namespace derivation and the project-type precedence chain.

Central results:

- **The brace scan stops at once.** The scan starts at the match index, which is the access keyword of the method pattern, not its first `{`. It tests the depth after every character. So it returns the start index itself, and the long-method, unused-parameter and missing-return checks never report (`ImplementationAnalyzer.ScanChecksNeverReport`). The model keeps this behaviour as written.
- **The inheritance rule is all or nothing.** One virtual method anywhere in a file silences every class in it.
- **`.Replace(".cs", "")` in the namespace derivation is not a no-op.** Segments that end in `.cs` are dropped first, but the replacement still removes interior occurrences: a directory `Views.cshtml` becomes the namespace segment `Viewshtml`.

Further behaviour of the code that the model keeps:

- **Long methods.** The long-method message goes into the violations list; `Alerts` is never filled. The line count is the number of `'\n'` in the block plus one.
- **No failure isolation.** A failing rule is not isolated: an exception ends the run.
- **Documentation rule.** `XmlDocAnalyzer.AnalyzeDocumentation` is declared with the text alone, while the call at TypeAnalyzer.cs line 40 also passes the project type.
- **Local variables.** The local-variable rule applies to every declaration its pattern matches, parameter lists included.
- **Bare report names.** A report path without a directory, such as `report.md`, is always rejected: its directory name is empty, and an empty path is never an existing directory.

## Model

| member | source | states |
|---|---|---|
| BraceScan.ScanBlockEnd | SOLTEC.CodeAnalyzer/Analyzers/ImplementationAnalyzer.cs:84-96 | the index loop returns `BlockEnd`: the first index from the start at which the brace depth counted from the start is zero, or -1 when there is none |
| BraceScan.BlockEnd | SOLTEC.CodeAnalyzer/Analyzers/ImplementationAnalyzer.cs:84-96 | the result is -1 exactly when the depth never returns to zero; otherwise it is the index at which the block closes |
| BraceScan.DepthStep | SOLTEC.CodeAnalyzer/Analyzers/ImplementationAnalyzer.cs:88-89 | each character changes the depth by +1 for `{`, -1 for `}` and 0 otherwise |
| BraceScan.DepthAtStart | SOLTEC.CodeAnalyzer/Analyzers/ImplementationAnalyzer.cs:86-89 | the depth after the start character is that character's own contribution |
| BraceScan.ClosesAtUnique | SOLTEC.CodeAnalyzer/Analyzers/ImplementationAnalyzer.cs:91-95 | the `break` makes the end unique: two closing indexes for the same start are equal |
| BraceScan.ScanStopsAtNonBrace | SOLTEC.CodeAnalyzer/Analyzers/ImplementationAnalyzer.cs:83-98 | a scan that starts on a character other than a brace ends at the start itself |
| BraceScan.DepthPositiveBeforeEnd | SOLTEC.CodeAnalyzer/Analyzers/ImplementationAnalyzer.cs:86-96 | from a `{`, the depth stays at least one before the closing index |
| BraceScan.ClosedBlockShape | SOLTEC.CodeAnalyzer/Analyzers/ImplementationAnalyzer.cs:86-100 | from a `{`, a found end lies after the start and holds `}`, and the block before it has exactly one more `{` than `}` |
| BraceScan.DepthPositiveWithoutCloser | SOLTEC.CodeAnalyzer/Analyzers/ImplementationAnalyzer.cs:86-96 | from a `{` with no `}` after it, the depth never drops below one |
| BraceScan.UnclosedBlock | SOLTEC.CodeAnalyzer/Analyzers/ImplementationAnalyzer.cs:84-98 | from a `{` with no `}` after it, the scan returns -1, so no block is examined |
| ImplementationAnalyzer.AnalyzeImplementation | SOLTEC.CodeAnalyzer/Analyzers/ImplementationAnalyzer.cs:15-29 | the result is the eight sub-check lists concatenated in the fixed order: empty types, useless methods, long methods, unused parameters, empty catch, unused fields, empty constructors, missing returns |
| ImplementationAnalyzer.DetectEmptyPublicTypes | SOLTEC.CodeAnalyzer/Analyzers/ImplementationAnalyzer.cs:31-52 | one message per type match whose body pattern succeeds and whose body exposes no member, in match order, naming the kind and the type |
| ImplementationAnalyzer.DetectUselessPublicMethods | SOLTEC.CodeAnalyzer/Analyzers/ImplementationAnalyzer.cs:54-74 | one message per public-method match whose trimmed body is blank, comment-only, a NotImplementedException or a trivial return, in match order |
| ImplementationAnalyzer.UselessMethodMessages | SOLTEC.CodeAnalyzer/Analyzers/ImplementationAnalyzer.cs:61-70 | at most one message per method, and a blank body always gets one |
| ImplementationAnalyzer.DetectLongMethods | SOLTEC.CodeAnalyzer/Analyzers/ImplementationAnalyzer.cs:76-111 | the loop over method matches runs the brace scan and reports each match whose scanned block has more than 50 lines |
| ImplementationAnalyzer.LongMethodThreshold | SOLTEC.CodeAnalyzer/Analyzers/ImplementationAnalyzer.cs:98-106 | when the scan finds an end after the start, the line count is the block's newline count plus one, and the message is added exactly when that count is strictly greater than 50 |
| ImplementationAnalyzer.DetectUnusedParameters | SOLTEC.CodeAnalyzer/Analyzers/ImplementationAnalyzer.cs:113-155 | the loop over method matches scans each block and checks that method's comma-split entries only when the scan finds an end after the start |
| ImplementationAnalyzer.UnusedInBody | SOLTEC.CodeAnalyzer/Analyzers/ImplementationAnalyzer.cs:142-150 | the inner loop reports the entries of one method in entry order |
| ImplementationAnalyzer.ParamNameIsLastToken | SOLTEC.CodeAnalyzer/Analyzers/ImplementationAnalyzer.cs:144 | for an entry `type name`, the parameter name is the token after the last space of the trimmed entry |
| ImplementationAnalyzer.ParamNameWithoutSpace | SOLTEC.CodeAnalyzer/Analyzers/ImplementationAnalyzer.cs:144 | a trimmed entry without a space is its own parameter name |
| ImplementationAnalyzer.UnusedParamsAtMostOnePerEntry | SOLTEC.CodeAnalyzer/Analyzers/ImplementationAnalyzer.cs:142-150 | a method gets at most one message per parameter entry |
| ImplementationAnalyzer.UnusedParamsExactly | SOLTEC.CodeAnalyzer/Analyzers/ImplementationAnalyzer.cs:144-149 | a message is present exactly when some entry has a non-blank name with no whole-word occurrence in the block; blank names are skipped |
| ImplementationAnalyzer.EmptyCatchViolations | SOLTEC.CodeAnalyzer/Analyzers/ImplementationAnalyzer.cs:157-166 | at most one message per file, present exactly when the empty-catch pattern matches, however many catch blocks match |
| ImplementationAnalyzer.DetectUnusedFields | SOLTEC.CodeAnalyzer/Analyzers/ImplementationAnalyzer.cs:168-185 | one message per field match whose name has at most one whole-word occurrence in the file, in match order |
| ImplementationAnalyzer.UnusedFieldsAtMostOnePerField | SOLTEC.CodeAnalyzer/Analyzers/ImplementationAnalyzer.cs:173-182 | no more messages than field matches |
| ImplementationAnalyzer.UnusedFieldsExactly | SOLTEC.CodeAnalyzer/Analyzers/ImplementationAnalyzer.cs:175-181 | a message is present exactly when some matched field's name has at most one whole-word occurrence in the whole file |
| ImplementationAnalyzer.DetectEmptyPublicConstructors | SOLTEC.CodeAnalyzer/Analyzers/ImplementationAnalyzer.cs:187-204 | one message per constructor match whose body is blank or comment-only, in match order |
| ImplementationAnalyzer.EmptyConstructorMessages | SOLTEC.CodeAnalyzer/Analyzers/ImplementationAnalyzer.cs:194-200 | at most one message per constructor, and a blank body always gets one |
| ImplementationAnalyzer.DetectMissingReturnStatements | SOLTEC.CodeAnalyzer/Analyzers/ImplementationAnalyzer.cs:206-246 | the loop skips exempt return types, scans each other block, and reports a block without the `return` keyword |
| ImplementationAnalyzer.MissingReturnOnlyNonExempt | SOLTEC.CodeAnalyzer/Analyzers/ImplementationAnalyzer.cs:213-241 | every missing-return message names a matched method whose return type is not exempt, together with that type |
| ImplementationAnalyzer.ExemptReturnTypesSilent | SOLTEC.CodeAnalyzer/Analyzers/ImplementationAnalyzer.cs:216-217 | methods returning `void` or `Task`, or a type starting with `Task<`, are never reported |
| ImplementationAnalyzer.AccessKeywordIsNotBrace | SOLTEC.CodeAnalyzer/Analyzers/ImplementationAnalyzer.cs:270-286 | a match that starts at an access keyword starts inside the text, on a character that is not a brace |
| ImplementationAnalyzer.NonBraceStartSilences | SOLTEC.CodeAnalyzer/Analyzers/ImplementationAnalyzer.cs:83-98 | a match that does not start on a brace has a scanned end at or before its start, so none of the three scanning checks reports it |
| ImplementationAnalyzer.ScanChecksNeverReport | SOLTEC.CodeAnalyzer/Analyzers/ImplementationAnalyzer.cs:15-29 | when the three method patterns match at access keywords, the long-method, unused-parameter and missing-return lists are empty, and the analyzer's output is the other five lists in order |
| InheritanceRulesAnalyzer.AnalyzeInheritanceControl | SOLTEC.CodeAnalyzer/Analyzers/InheritanceRulesAnalyzer.cs:21-38 | the loop over class matches builds `InheritanceViolations`, using the file-wide virtual test for every class |
| InheritanceRulesAnalyzer.VirtualMethodSilencesFile | SOLTEC.CodeAnalyzer/Analyzers/InheritanceRulesAnalyzer.cs:30-34 | one public or protected virtual method anywhere in the file clears every message |
| InheritanceRulesAnalyzer.EveryClassReportedWithoutVirtual | SOLTEC.CodeAnalyzer/Analyzers/InheritanceRulesAnalyzer.cs:26-35 | without a virtual method, there is exactly one message per class match, in match order, naming the captured class |
| NamespaceStructureAnalyzer.AnalyzeNamespaceStructure | SOLTEC.CodeAnalyzer/Analyzers/NamespaceStructureAnalyzer.cs:21-54 | the early return, the count test and the line scan with `continue`/`break` give `StructureViolations` for the number of declarations matched |
| NamespaceStructureAnalyzer.StructureViolations | SOLTEC.CodeAnalyzer/Analyzers/NamespaceStructureAnalyzer.cs:27-53 | at most two messages, and the result is the single no-declaration message exactly when no declaration matched |
| NamespaceStructureAnalyzer.PositionViolations | SOLTEC.CodeAnalyzer/Analyzers/NamespaceStructureAnalyzer.cs:40-51 | the line scan yields no message or the single not-at-top message |
| NamespaceStructureAnalyzer.StructureShape | SOLTEC.CodeAnalyzer/Analyzers/NamespaceStructureAnalyzer.cs:27-53 | at most two messages. No declaration gives exactly the no-declaration message. The multiple message appears exactly when there is more than one declaration, and comes first. The position message appears exactly when the first line that is not blank or a comment does not start with `namespace `, and comes last |
| NamespaceStructureAnalyzer.AllSkippedNoPositionMessage | SOLTEC.CodeAnalyzer/Analyzers/NamespaceStructureAnalyzer.cs:40-51 | if every line is blank or a comment opener, there is no position message |
| NamespaceAnalyzer.RelativePath | SOLTEC.CodeAnalyzer/Analyzers/NamespaceAnalyzer.cs:24 | after the root is removed and separators are normalised, the relative path holds no backslash and neither starts nor ends with `/`; `RelativePathOfNestedFile` gives its exact value for a file under the root |
| NamespaceAnalyzer.RelativePathOfNestedFile | SOLTEC.CodeAnalyzer/Analyzers/NamespaceAnalyzer.cs:24 | for the Windows path `root\p1\...\pn` whose parts hold no separator and no further copy of the root, the relative path is `p1/.../pn` |
| NamespaceAnalyzer.ReplaceLeadingOccurrence | SOLTEC.CodeAnalyzer/Analyzers/NamespaceAnalyzer.cs:24 | replacing the root in `root + rest`, where `rest` holds no further copy of it, leaves `rest` behind the replacement |
| NamespaceAnalyzer.SeparatorsToSlashes | SOLTEC.CodeAnalyzer/Analyzers/NamespaceAnalyzer.cs:24 | replacing `\` by `/` turns the backslash-joined parts into the slash-joined parts |
| NamespaceAnalyzer.TrimLeadingChar | SOLTEC.CodeAnalyzer/Analyzers/NamespaceAnalyzer.cs:24 | trimming `/` from `/` followed by a path with no `/` at either end gives that path |
| NamespaceAnalyzer.NamespaceSegments | SOLTEC.CodeAnalyzer/Analyzers/NamespaceAnalyzer.cs:26-27 | no more segments than the path has, and none at all exactly when every path segment ends in `.cs` |
| NamespaceAnalyzer.ExpectedFromRelative | SOLTEC.CodeAnalyzer/Analyzers/NamespaceAnalyzer.cs:25-27 | the expected namespace always starts with `SOLTEC.` |
| NamespaceAnalyzer.PlainSegmentKept | SOLTEC.CodeAnalyzer/Analyzers/NamespaceAnalyzer.cs:26-27 | a segment without `.cs` is kept and left unchanged |
| NamespaceAnalyzer.DirectoriesKept | SOLTEC.CodeAnalyzer/Analyzers/NamespaceAnalyzer.cs:25-27 | directories without `.cs`, followed by a file name ending in `.cs`, give the directories as segments |
| NamespaceAnalyzer.DirectoriesBecomeNamespace | SOLTEC.CodeAnalyzer/Analyzers/NamespaceAnalyzer.cs:24-27 | for `dir1/.../dirn/File.cs`, the expected namespace is `SOLTEC.dir1. ... .dirn` |
| NamespaceAnalyzer.PathBecomesNamespace | SOLTEC.CodeAnalyzer/Analyzers/NamespaceAnalyzer.cs:24-27 | for the file `root\d1\...\dn\File.cs` under the project root, the expected namespace is `SOLTEC.d1. ... .dn` |
| NamespaceAnalyzer.ReplaceInCshtml | SOLTEC.CodeAnalyzer/Analyzers/NamespaceAnalyzer.cs:27 | the replacement removes `.cs` from `.cshtml`, leaving `html` |
| NamespaceAnalyzer.ReplaceInViewsCshtml | SOLTEC.CodeAnalyzer/Analyzers/NamespaceAnalyzer.cs:27 | `Views.cshtml` becomes `Viewshtml` |
| NamespaceAnalyzer.CsRemovedInsideSegment | SOLTEC.CodeAnalyzer/Analyzers/NamespaceAnalyzer.cs:26-27 | a directory named `Views.cshtml` survives the filter but becomes the segment `Viewshtml`, so the replacement is not a no-op |
| NamespaceAnalyzer.FirstNamespaceLine | SOLTEC.CodeAnalyzer/Analyzers/NamespaceAnalyzer.cs:30 | no line is chosen exactly when no line starts with `namespace ` after its leading white space; a chosen line does |
| NamespaceAnalyzer.FirstNamespaceLineIsFirst | SOLTEC.CodeAnalyzer/Analyzers/NamespaceAnalyzer.cs:30 | the chosen line is the first such line |
| NamespaceAnalyzer.NamespaceLinesNotBlank | SOLTEC.CodeAnalyzer/Analyzers/NamespaceAnalyzer.cs:30-33 | a line found by the search is never blank, so "no namespace" comes only from the absence of such a line |
| NamespaceAnalyzer.DeclaredNamespace | SOLTEC.CodeAnalyzer/Analyzers/NamespaceAnalyzer.cs:39 | the declared namespace never ends with `;` |
| NamespaceAnalyzer.CheckDeclaration | SOLTEC.CodeAnalyzer/Analyzers/NamespaceAnalyzer.cs:32-45 | With no line or a blank one, the result is "No namespace declared." When the pattern rejects the line, it is "Namespace declaration is invalid.". The verdict is valid exactly when the declared namespace equals the expected one; otherwise it is the mismatch message naming both. The message is empty exactly when the verdict is valid |
| NamespaceAnalyzer.AnalyzeNamespace | SOLTEC.CodeAnalyzer/Analyzers/NamespaceAnalyzer.cs:22-46 | the message is empty exactly when the namespace is valid |
| NamespaceAnalyzer.NoNamespaceExactlyWithoutLine | SOLTEC.CodeAnalyzer/Analyzers/NamespaceAnalyzer.cs:29-33 | the no-namespace message is returned exactly when no line of the file starts with `namespace ` after its leading white space |
| NamespaceAnalyzer.ValidExactlyWhenDeclaredAsExpected | SOLTEC.CodeAnalyzer/Analyzers/NamespaceAnalyzer.cs:29-45 | the file is valid exactly when its first namespace line matches the pattern and declares the namespace derived from its path |
| NamespaceAnalyzer.FirstNamespaceLineDecides | SOLTEC.CodeAnalyzer/Analyzers/NamespaceAnalyzer.cs:30-45 | only the first namespace line is examined: two files with the same first namespace line get the same verdict |
| NamingRulesAnalyzer.AnalyzeNamingRules | SOLTEC.CodeAnalyzer/Analyzers/NamingRulesAnalyzer.cs:26-83 | all field messages, then constant, local-variable and parameter messages, each group in match order |
| NamingRulesAnalyzer.FieldViolations | SOLTEC.CodeAnalyzer/Analyzers/NamingRulesAnalyzer.cs:32-39 | the loop over field matches reports each failing field in match order |
| NamingRulesAnalyzer.ConstantViolations | SOLTEC.CodeAnalyzer/Analyzers/NamingRulesAnalyzer.cs:43-50 | the loop over constant matches reports each failing constant in match order |
| NamingRulesAnalyzer.LocalViolations | SOLTEC.CodeAnalyzer/Analyzers/NamingRulesAnalyzer.cs:54-61 | the loop over local-variable matches reports each failing local in match order |
| NamingRulesAnalyzer.ParameterViolations | SOLTEC.CodeAnalyzer/Analyzers/NamingRulesAnalyzer.cs:65-80 | the outer loop reports the entries of each parenthesised list, list by list |
| NamingRulesAnalyzer.EntryViolations | SOLTEC.CodeAnalyzer/Analyzers/NamingRulesAnalyzer.cs:68-79 | the inner loop reports the failing entries of one list in order |
| NamingRulesAnalyzer.FieldCheck | SOLTEC.CodeAnalyzer/Analyzers/NamingRulesAnalyzer.cs:34-38 | a field is reported exactly when its name does not start with `g`; the `gc` test adds nothing |
| NamingRulesAnalyzer.GcStartsWithG | SOLTEC.CodeAnalyzer/Analyzers/NamingRulesAnalyzer.cs:35 | a name starting with `gc` starts with `g`, which is why the second test is subsumed |
| NamingRulesAnalyzer.FieldMessagesNameFailingFields | SOLTEC.CodeAnalyzer/Analyzers/NamingRulesAnalyzer.cs:32-39 | a field message for a name is present exactly when the name does not start with `g` and some match captured it |
| NamingRulesAnalyzer.ConstantNeedsGc | SOLTEC.CodeAnalyzer/Analyzers/NamingRulesAnalyzer.cs:46-49 | a constant starting with `g` but not `gc` (such as `gX`) is reported |
| NamingRulesAnalyzer.ConstantMessagesNameFailingConstants | SOLTEC.CodeAnalyzer/Analyzers/NamingRulesAnalyzer.cs:43-50 | a constant message for a name is present exactly when the name starts with neither `gc` nor `_c` and some match captured it |
| NamingRulesAnalyzer.LocalCheck | SOLTEC.CodeAnalyzer/Analyzers/NamingRulesAnalyzer.cs:56-60 | a local variable is reported exactly when its name starts with neither `_` nor `g`; the `gc` test adds nothing |
| NamingRulesAnalyzer.LocalMessagesNameFailingLocals | SOLTEC.CodeAnalyzer/Analyzers/NamingRulesAnalyzer.cs:54-61 | a local-variable message for a name is present exactly when the name starts with neither `_` nor `g` and some match captured it |
| NamingRulesAnalyzer.EntryCheck | SOLTEC.CodeAnalyzer/Analyzers/NamingRulesAnalyzer.cs:70-77 | at most one message per parameter entry |
| NamingRulesAnalyzer.TypedEntryChecked | SOLTEC.CodeAnalyzer/Analyzers/NamingRulesAnalyzer.cs:70-77 | an entry `Type name` is reported exactly when `name` starts with an upper-case letter |
| NamingRulesAnalyzer.OnlyTwoPartEntriesChecked | SOLTEC.CodeAnalyzer/Analyzers/NamingRulesAnalyzer.cs:70-71 | a reported entry has exactly one space after trimming, so it splits into exactly two parts |
| NamingRulesAnalyzer.AtMostOnePerMatch | SOLTEC.CodeAnalyzer/Analyzers/NamingRulesAnalyzer.cs:32-80 | at most one message per field, constant and local match, and per entry of a parameter list |
| ParameterValidator.ReadArguments | SOLTEC.CodeAnalyzer/Utils/ParameterValidator.cs:29-51 | the loop that advances its index past a consumed value yields `Parse(args)`: the defaults updated by the arguments as the loop groups them |
| ParameterValidator.Validate | SOLTEC.CodeAnalyzer/Utils/ParameterValidator.cs:27-85 | The settings are `Parse(args)`. The result is valid exactly when both paths are non-blank, the project directory exists and the report's directory exists; the message is empty exactly then. An empty path never counts as an existing directory. A blank path gives the usage text before any directory check. A missing project directory gives the path error for the project path; a missing report directory gives it for the output path |
| ParameterValidator.BareFileNameRejected | SOLTEC.CodeAnalyzer/Utils/ParameterValidator.cs:78-82 | for `-p <project> -o <name>` where the name has an empty directory part, the report's directory never exists, so the arguments are rejected |
| ParameterValidator.Tokenize | SOLTEC.CodeAnalyzer/Utils/ParameterValidator.cs:34-51 | the loop groups the arguments into at most as many steps as there are arguments, and none exactly when there are no arguments |
| ParameterValidator.NoFlagsAllIgnored | SOLTEC.CodeAnalyzer/Utils/ParameterValidator.cs:36-50 | when no argument is a flag, every step passes its argument over |
| ParameterValidator.Apply | SOLTEC.CodeAnalyzer/Utils/ParameterValidator.cs:29-51 | steps that are ignored or lack a value leave the initial empty settings unchanged |
| ParameterValidator.NoFlagsGiveDefaults | SOLTEC.CodeAnalyzer/Utils/ParameterValidator.cs:29-51 | arguments none of which is a flag give the initial empty paths with console output off |
| ParameterValidator.TokenizeAt | SOLTEC.CodeAnalyzer/Utils/ParameterValidator.cs:36-50 | one pass of the loop consumes a path flag with its value, or a single argument, and stays within the arguments |
| ParameterValidator.TokenizeConsumesAll | SOLTEC.CodeAnalyzer/Utils/ParameterValidator.cs:34-51 | every argument is consumed exactly once, in order, as a flag or as a value |
| ParameterValidator.ValueTakenVerbatim | SOLTEC.CodeAnalyzer/Utils/ParameterValidator.cs:38-41 | the argument after `-p`/`--project` is taken as its value even when it looks like a flag |
| ParameterValidator.MissingValueOnlyLast | SOLTEC.CodeAnalyzer/Utils/ParameterValidator.cs:40-44 | a path flag without a value can only be the last argument |
| ParameterValidator.ProjectPathIsLastValue | SOLTEC.CodeAnalyzer/Utils/ParameterValidator.cs:38-41 | the project path is the value of the last project flag, or empty when there is none |
| ParameterValidator.OutputPathIsLastValue | SOLTEC.CodeAnalyzer/Utils/ParameterValidator.cs:42-45 | the output path is the value of the last output flag, or empty when there is none |
| ParameterValidator.ConsoleExactlyWhenFlagged | SOLTEC.CodeAnalyzer/Utils/ParameterValidator.cs:46-49 | console output is on exactly when some argument is `-c` or `--console` outside a flag's value |
| ProjectTypeDetector.DetectType | SOLTEC.CodeAnalyzer/Utils/ProjectTypeDetector.cs:21-44 | No manifest gives Unknown. Unknown is returned exactly when the manifest contains none of the four markers. Otherwise the type is that of the first marker contained, in the order Web SDK, Razor SDK, Exe output, Library output |
| ProjectTypeDetector.WebMarkerDominates | SOLTEC.CodeAnalyzer/Utils/ProjectTypeDetector.cs:31-32 | a manifest containing the Web SDK marker is a WebApi, whatever else it contains |
| ProjectTypeDetector.ExeOutputWithoutSdkMarkers | SOLTEC.CodeAnalyzer/Utils/ProjectTypeDetector.cs:37-38 | the Exe output type without either SDK marker gives ConsoleApp |
| Models.KeepNonEmptyFollowsFiles | SOLTEC.CodeAnalyzer/Analyzers/TypeAnalyzer.cs:28-56 | the results are one per file with a non-empty list and none for the others, in file order, each carrying that file's path and list and no alerts |
| TypeAnalyzer.NamespaceErrors | SOLTEC.CodeAnalyzer/Analyzers/TypeAnalyzer.cs:34-35 | the namespace message is included, once and non-empty, exactly when the namespace is not valid |
| TypeAnalyzer.ViolationLists | SOLTEC.CodeAnalyzer/Analyzers/TypeAnalyzer.cs:28-47 | one violation list per file, in file order |
| TypeAnalyzer.AnalyzeFile | SOLTEC.CodeAnalyzer/Analyzers/TypeAnalyzer.cs:31-47 | a file's violations are the namespace error, then structure, documentation, naming, inheritance and implementation, in that order |
| TypeAnalyzer.AnalyzeAllTypes | SOLTEC.CodeAnalyzer/Analyzers/TypeAnalyzer.cs:23-60 | a result is appended exactly for the files whose list is non-empty, in file order, at most one per file, with empty alerts |
| ClassAnalyzer.NamespaceErrors | SOLTEC.CodeAnalyzer/Analyzers/ClassAnalyzer.cs:37-38 | the namespace message is included, once and non-empty, exactly when the namespace is not valid |
| ClassAnalyzer.ViolationLists | SOLTEC.CodeAnalyzer/Analyzers/ClassAnalyzer.cs:31-41 | one violation list per file, in file order |
| ClassAnalyzer.AnalyzeFile | SOLTEC.CodeAnalyzer/Analyzers/ClassAnalyzer.cs:33-41 | a file's violations are the namespace error, then documentation, then naming; no structure, inheritance or implementation rule runs |
| ClassAnalyzer.AnalyzeAllClasses | SOLTEC.CodeAnalyzer/Analyzers/ClassAnalyzer.cs:26-55 | a result is appended exactly for the files whose list is non-empty, in file order, at most one per file, with empty alerts |

## Left out

- Regular-expression semantics: every pattern, including the body pattern built at run time in DetectEmptyPublicTypes and the whole-word pattern built from a name, is an uninterpreted function. So the model does not capture what the patterns match. For example, the `sealed`/`abstract` exclusion of the class pattern and the comment-only, NotImplementedException and trivial-return tests are not modelled.
- ImplementationAnalyzer.UselessMethodMessages: the contract names only the blank-body case and the bound of one message; the three pattern tests are uninterpreted, so the other cases are stated only by the function's body.
- ImplementationAnalyzer.EmptyConstructorMessages: the contract names only the blank-body case and the bound of one message; the comment-only pattern is uninterpreted.
- The documentation rule (Analyzers/XmlDocAnalyzer.cs) is not part of this model. It is built entirely from run-time patterns, so it is an uninterpreted function in each coordinator. In TypeAnalyzer it is a function of the text and the project type, as the call at TypeAnalyzer.cs line 40 passes both (the declaration takes only the text). In ClassAnalyzer it is a function of the text alone.
- File-system access: directory listing (Utils/FileScanner.cs, Directory.GetFiles), File.ReadAllText, Directory.Exists, Path.GetDirectoryName and the manifest lookup. These become inputs: the `files` sequence of paths and texts in enumeration order, the `directoryExists` and `directoryName` functions, and the optional manifest text. `directoryExists` is consulted only for a non-empty path: Directory.Exists is false for the empty string, which Path.GetDirectoryName returns for a bare file name.
- Report/MarkdownReportGenerator.cs (formatting, the clock and a file write) and Program.cs (console I/O, exception printing) are not part of this model.
- Exceptions: a caller of AnalyzeNamespace must give a non-empty project root, because string.Replace throws on an empty search string; the coordinators therefore require one. The slice `content[_match.Index..]` at ImplementationAnalyzer.cs line 123 is never used and would only throw for an index past the end; a match index lies inside the text, so it is left out.
- The `.cs` replacement: segments that end in `.cs` are dropped and the replacement still runs on the others. The model follows the code, which removes interior `.cs` from a directory name.
- ParameterValidator.Validate: the message for a missing report directory reuses the project-path wording of the code; the model keeps it. Validate's five out parameters are modelled; Program.cs's four-argument call is not.
- String comparisons: StartsWith and EndsWith are culture-sensitive in .NET; they are modelled as ordinal comparisons.
- NamingRulesAnalyzer.TypedEntryChecked: char.IsUpper is modelled for the ASCII and Latin-1 upper-case letters only.
- White space is the Unicode White_Space set that char.IsWhiteSpace accepts.
- Helpers that structure the proofs (the per-rule methods of NamingRulesAnalyzer and ImplementationAnalyzer.UnusedInBody, ReadArguments, AnalyzeFile) decompose loops that the source writes inline; the computation they perform is the source's.
- Models/ViolationDetail.cs is a datatype only: nothing in the core builds one.
