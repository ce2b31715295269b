/**
 * Utils/ParameterValidator.cs: reads the command-line arguments into the
 * project path, the report path and the console flag, then checks them.
 * The file system is passed in: `directoryExists` answers Directory.Exists for
 * a non-empty path, and `directoryName` stands for Path.GetDirectoryName (None
 * for its null result).
 */
module ParameterValidator {
  import opened Text
  import opened Optional

  predicate IsProjectFlag(a: string) { a == "-p" || a == "--project" }
  predicate IsOutputFlag(a: string) { a == "-o" || a == "--output" }
  predicate IsConsoleFlag(a: string) { a == "-c" || a == "--console" }

  /** What one pass of the argument loop consumes: a path flag with its value, a console flag, or one other argument. */
  datatype Arg =
    | ProjectArg(flag: string, value: string)
    | OutputArg(flag: string, value: string)
    | ConsoleArg(flag: string)
    | MissingValue(flag: string)  // a path flag given as the very last argument
    | Ignored(arg: string)

  /** The arguments as the loop groups them: a path flag takes the next argument as its value, whatever it is. */
  function Tokenize(args: seq<string>): (toks: seq<Arg>)
    ensures |toks| <= |args|
    ensures toks == [] <==> args == []
    decreases |args|
  {
    if args == [] then []
    else if IsProjectFlag(args[0]) then
      if |args| > 1 then [ProjectArg(args[0], args[1])] + Tokenize(args[2..]) else [MissingValue(args[0])]
    else if IsOutputFlag(args[0]) then
      if |args| > 1 then [OutputArg(args[0], args[1])] + Tokenize(args[2..]) else [MissingValue(args[0])]
    else if IsConsoleFlag(args[0]) then [ConsoleArg(args[0])] + Tokenize(args[1..])
    else [Ignored(args[0])] + Tokenize(args[1..])
  }

  /** Arguments none of which is a flag are all passed over. */
  lemma {:induction false} NoFlagsAllIgnored(args: seq<string>)
    requires forall k | 0 <= k < |args| :: !IsProjectFlag(args[k]) && !IsOutputFlag(args[k]) && !IsConsoleFlag(args[k])
    ensures forall k | 0 <= k < |Tokenize(args)| :: Tokenize(args)[k].Ignored?
    decreases |args|
  {
    if args != [] {
      assert forall k | 0 <= k < |args| - 1 :: args[1..][k] == args[k + 1];
      NoFlagsAllIgnored(args[1..]);
    }
  }

  /** The arguments one step consumed. */
  function Consumed(t: Arg): seq<string> {
    match t
    case ProjectArg(f, v) => [f, v]
    case OutputArg(f, v) => [f, v]
    case ConsoleArg(f) => [f]
    case MissingValue(f) => [f]
    case Ignored(a) => [a]
  }

  /** The arguments the steps consumed, in order. */
  function Raw(toks: seq<Arg>): seq<string>
    decreases |toks|
  {
    if toks == [] then [] else Consumed(toks[0]) + Raw(toks[1..])
  }

  /** The settings the validator fills in. */
  datatype Settings = Settings(projectPath: string, outputPath: string, printToConsole: bool)

  /** The values before the loop: empty paths and no console output. */
  const Defaults := Settings("", "", false)

  /** One step of the loop's switch. */
  function Step(st: Settings, t: Arg): Settings {
    match t
    case ProjectArg(_, v) => st.(projectPath := v)
    case OutputArg(_, v) => st.(outputPath := v)
    case ConsoleArg(_) => st.(printToConsole := true)
    case MissingValue(_) => st
    case Ignored(_) => st
  }

  /** The settings after the steps `toks`, from the defaults. */
  function Apply(toks: seq<Arg>): (st: Settings)
    ensures (forall k | 0 <= k < |toks| :: toks[k].Ignored? || toks[k].MissingValue?) ==> st == Defaults
    decreases |toks|
  {
    if toks == [] then Defaults
    else
      assert forall k | 0 <= k < |toks| - 1 :: toks[..|toks| - 1][k] == toks[k];
      Step(Apply(toks[..|toks| - 1]), toks[|toks| - 1])
  }

  /** The settings the argument loop produces. */
  function Parse(args: seq<string>): Settings {
    Apply(Tokenize(args))
  }

  /** Without a flag among the arguments, the settings keep their initial empty values. */
  lemma NoFlagsGiveDefaults(args: seq<string>)
    requires forall k | 0 <= k < |args| :: !IsProjectFlag(args[k]) && !IsOutputFlag(args[k]) && !IsConsoleFlag(args[k])
    ensures Parse(args) == Defaults
  {
    NoFlagsAllIgnored(args);
  }

  const PathErrorPrefix := "\U{274C} Error: Project path does not exist: "

  /** The usage text returned when a path is missing (the raw literal of lines 55-69, its indentation removed). */
  const UsageMessage :=
    "\U{274C} Error: Missing required parameters.\n"
    + "\n"
    + "Usage:\n"
    + "  -p <project_path>         Path to the C# project directory\n"
    + "  --project <project_path>  Path to the C# project directory\n"
    + "  -o <output_path>          Path to the Markdown report file\n"
    + "  --output <output_path>    Path to the Markdown report file\n"
    + "  -c                        (Optional) Also print results to console\n"
    + "  --console                 (Optional) Also print results to console\n"
    + "\n"
    + "Example:\n"
    + "  dotnet run -- -p \"C:\\\\MyProject\" -o \"C:\\\\Reports\\\\output.md\" -c\n"
    + "  dotnet run -- --project \"C:\\\\MyProject\" -output \"C:\\\\Reports\\\\output.md\" -console"

  /**
   * Directory.Exists: the empty path names no directory, whatever the file
   * system holds; any other path is looked up in `directoryExists`.
   */
  predicate DirectoryExists(directoryExists: string -> bool, path: string) {
    path != "" && directoryExists(path)
  }

  /** Directory.Exists(Path.GetDirectoryName(path)); a null directory name does not exist. */
  predicate ParentExists(path: string, directoryExists: string -> bool, directoryName: string -> Option<string>) {
    var d := directoryName(path);
    d.Some? && DirectoryExists(directoryExists, d.value)
  }

  /**
   * Path.GetDirectoryName gives "" for a bare file name such as "report.md",
   * so `-p <project> -o report.md` is read as given but its report directory
   * never exists, whatever the file system holds.
   */
  lemma BareFileNameRejected(project: string, report: string,
                             directoryExists: string -> bool, directoryName: string -> Option<string>)
    requires directoryName(report) == Some("")
    ensures Parse(["-p", project, "-o", report]) == Settings(project, report, false)
    ensures !ParentExists(Parse(["-p", project, "-o", report]).outputPath, directoryExists, directoryName)
  {
    var rest := ["-o", report];
    assert ["-p", project, "-o", report] == ["-p", project] + rest;
    ValueTakenVerbatim("-p", project, rest);
    assert IsOutputFlag(rest[0]) && rest[2..] == [];
    var toks := [ProjectArg("-p", project), OutputArg("-o", report)];
    assert Tokenize(["-p", project, "-o", report]) == toks;
    ApplySnoc([], ProjectArg("-p", project));
    ApplySnoc([ProjectArg("-p", project)], OutputArg("-o", report));
    assert [] + [ProjectArg("-p", project)] == [ProjectArg("-p", project)];
    assert [ProjectArg("-p", project)] + [OutputArg("-o", report)] == toks;
  }

  /** The step the loop takes at index `i`. */
  function HeadArg(args: seq<string>, i: nat): Arg
    requires i < |args|
  {
    if IsProjectFlag(args[i]) then
      if i + 1 < |args| then ProjectArg(args[i], args[i + 1]) else MissingValue(args[i])
    else if IsOutputFlag(args[i]) then
      if i + 1 < |args| then OutputArg(args[i], args[i + 1]) else MissingValue(args[i])
    else if IsConsoleFlag(args[i]) then ConsoleArg(args[i])
    else Ignored(args[i])
  }

  /** Where the loop goes on after the step at `i`: past the value of a path flag that has one. */
  function NextIndex(args: seq<string>, i: nat): nat
    requires i < |args|
  {
    if (IsProjectFlag(args[i]) || IsOutputFlag(args[i])) && i + 1 < |args| then i + 2 else i + 1
  }

  /** Tokenizing from `i` takes the step at `i` and goes on from NextIndex. */
  lemma TokenizeAt(args: seq<string>, i: nat)
    requires i < |args|
    ensures NextIndex(args, i) <= |args|
    ensures Tokenize(args[i..]) == [HeadArg(args, i)] + Tokenize(args[NextIndex(args, i)..])
  {
    var rest := args[i..];
    assert rest[0] == args[i];
    assert |rest| > 1 ==> rest[1] == args[i + 1] && rest[2..] == args[i + 2..];
    assert rest[1..] == args[i + 1..];
  }

  /** The loop's bookkeeping: the steps taken so far, then the step at `i`, then the rest. */
  lemma ConsumeStep(args: seq<string>, i: nat, done: seq<Arg>)
    requires i < |args|
    requires Tokenize(args) == done + Tokenize(args[i..])
    ensures NextIndex(args, i) <= |args|
    ensures Tokenize(args) == (done + [HeadArg(args, i)]) + Tokenize(args[NextIndex(args, i)..])
  {
    TokenizeAt(args, i);
    var rest := Tokenize(args[NextIndex(args, i)..]);
    assert done + ([HeadArg(args, i)] + rest) == (done + [HeadArg(args, i)]) + rest;
  }

  /** Applying one more step. */
  lemma ApplySnoc(done: seq<Arg>, t: Arg)
    ensures Apply(done + [t]) == Step(Apply(done), t)
  {
    assert (done + [t])[..|done|] == done;
  }

  /** The argument loop of lines 29-51: the settings of Parse. */
  method ReadArguments(args: seq<string>) returns (projectPath: string, outputPath: string, printToConsole: bool)
    ensures Settings(projectPath, outputPath, printToConsole) == Parse(args)
  {
    projectPath := "";
    outputPath := "";
    printToConsole := false;

    ghost var done: seq<Arg> := [];
    var i := 0;
    while i < |args|
      invariant 0 <= i <= |args|
      invariant Tokenize(args) == done + Tokenize(args[i..])
      invariant Settings(projectPath, outputPath, printToConsole) == Apply(done)
      decreases |args| - i
    {
      ghost var t := HeadArg(args, i);
      ghost var next := NextIndex(args, i);
      ConsumeStep(args, i, done);
      ApplySnoc(done, t);
      if args[i] == "-p" || args[i] == "--project" {
        if i + 1 < |args| {
          i := i + 1;
          projectPath := args[i];
        }
      } else if args[i] == "-o" || args[i] == "--output" {
        if i + 1 < |args| {
          i := i + 1;
          outputPath := args[i];
        }
      } else if args[i] == "-c" || args[i] == "--console" {
        printToConsole := true;
      }
      done := done + [t];
      i := i + 1;
      assert i == next;
    }
    assert args[i..] == [] && done + [] == done;
  }

  /**
   * Validate: the settings are those of Parse; the arguments are accepted
   * exactly when both paths are non-blank, the project directory exists and
   * the report's directory exists; each failure has its own message, and the
   * usage text wins over the directory checks.
   */
  method Validate(args: seq<string>, directoryExists: string -> bool, directoryName: string -> Option<string>)
    returns (valid: bool, projectPath: string, outputPath: string, printToConsole: bool, errorMessage: string)
    ensures Settings(projectPath, outputPath, printToConsole) == Parse(args)
    ensures valid <==>
      !IsNullOrWhiteSpace(projectPath) && !IsNullOrWhiteSpace(outputPath) &&
      DirectoryExists(directoryExists, projectPath) && ParentExists(outputPath, directoryExists, directoryName)
    ensures valid <==> errorMessage == ""
    ensures IsNullOrWhiteSpace(projectPath) || IsNullOrWhiteSpace(outputPath) ==> errorMessage == UsageMessage
    ensures !IsNullOrWhiteSpace(projectPath) && !IsNullOrWhiteSpace(outputPath) && !DirectoryExists(directoryExists, projectPath) ==>
      errorMessage == PathErrorPrefix + projectPath
    ensures !IsNullOrWhiteSpace(projectPath) && !IsNullOrWhiteSpace(outputPath) && DirectoryExists(directoryExists, projectPath)
      && !ParentExists(outputPath, directoryExists, directoryName)
      ==> errorMessage == PathErrorPrefix + outputPath
  {
    projectPath, outputPath, printToConsole := ReadArguments(args);
    errorMessage := "";

    if IsNullOrWhiteSpace(projectPath) || IsNullOrWhiteSpace(outputPath) {
      errorMessage := UsageMessage;
      return false, projectPath, outputPath, printToConsole, errorMessage;
    }
    if !DirectoryExists(directoryExists, projectPath) {
      errorMessage := PathErrorPrefix + projectPath;
      return false, projectPath, outputPath, printToConsole, errorMessage;
    }
    var parent := directoryName(outputPath);
    if parent.None? || !DirectoryExists(directoryExists, parent.value) {
      errorMessage := PathErrorPrefix + outputPath;
      return false, projectPath, outputPath, printToConsole, errorMessage;
    }
    valid := true;
  }

  // ---- properties of the argument loop ----

  /** Every argument is consumed exactly once, in order: the steps put back together give the arguments. */
  lemma {:induction false} TokenizeConsumesAll(args: seq<string>)
    ensures Raw(Tokenize(args)) == args
    decreases |args|
  {
    if args != [] {
      var n := NextIndex(args, 0);
      TokenizeAt(args, 0);
      assert args[0..] == args;
      TokenizeConsumesAll(args[n..]);
      RawCons(HeadArg(args, 0), Tokenize(args[n..]));
      assert Consumed(HeadArg(args, 0)) == args[..n];
      assert args[..n] + args[n..] == args;
    }
  }

  /** Putting back one more step. */
  lemma RawCons(t: Arg, toks: seq<Arg>)
    ensures Raw([t] + toks) == Consumed(t) + Raw(toks)
  {
    assert ([t] + toks)[1..] == toks;
  }

  /** A path flag without a value can only be the last argument. */
  lemma {:induction false} MissingValueOnlyLast(args: seq<string>)
    ensures forall k | 0 <= k < |Tokenize(args)| && Tokenize(args)[k].MissingValue? ::
      k == |Tokenize(args)| - 1 && Tokenize(args)[k].flag == args[|args| - 1]
    decreases |args|
  {
    if args != [] {
      var toks := Tokenize(args);
      var skip := if (IsProjectFlag(args[0]) || IsOutputFlag(args[0])) && |args| > 1 then 2 else 1;
      if !(IsProjectFlag(args[0]) || IsOutputFlag(args[0])) || |args| > 1 {
        var rest := Tokenize(args[skip..]);
        MissingValueOnlyLast(args[skip..]);
        assert toks == [toks[0]] + rest;
        forall k | 0 <= k < |toks| && toks[k].MissingValue?
          ensures k == |toks| - 1 && toks[k].flag == args[|args| - 1]
        {
          assert toks[k] == rest[k - 1];
          assert rest[k - 1].MissingValue?;
          assert k - 1 == |rest| - 1;
          assert args[skip..][|args| - skip - 1] == args[|args| - 1];
        }
      }
    }
  }

  /** The project path is the value of the last project flag, or empty when there is none. */
  lemma {:induction false} ProjectPathIsLastValue(toks: seq<Arg>)
    ensures (forall k | 0 <= k < |toks| :: !toks[k].ProjectArg?) ==> Apply(toks).projectPath == ""
    ensures forall k | 0 <= k < |toks| && toks[k].ProjectArg? && (forall j | k < j < |toks| :: !toks[j].ProjectArg?) ::
      Apply(toks).projectPath == toks[k].value
    decreases |toks|
  {
    if toks != [] {
      var n := |toks| - 1;
      var prev := toks[..n];
      ProjectPathIsLastValue(prev);
      assert forall k | 0 <= k < n :: prev[k] == toks[k];
      assert Apply(toks) == Step(Apply(prev), toks[n]);
    }
  }

  /** The report path is the value of the last output flag, or empty when there is none. */
  lemma {:induction false} OutputPathIsLastValue(toks: seq<Arg>)
    ensures (forall k | 0 <= k < |toks| :: !toks[k].OutputArg?) ==> Apply(toks).outputPath == ""
    ensures forall k | 0 <= k < |toks| && toks[k].OutputArg? && (forall j | k < j < |toks| :: !toks[j].OutputArg?) ::
      Apply(toks).outputPath == toks[k].value
    decreases |toks|
  {
    if toks != [] {
      var n := |toks| - 1;
      var prev := toks[..n];
      OutputPathIsLastValue(prev);
      assert forall k | 0 <= k < n :: prev[k] == toks[k];
      assert Apply(toks) == Step(Apply(prev), toks[n]);
    }
  }

  /** Console output is on exactly when some step was a console flag. */
  lemma {:induction false} ConsoleExactlyWhenFlagged(toks: seq<Arg>)
    ensures Apply(toks).printToConsole <==> exists k | 0 <= k < |toks| :: toks[k].ConsoleArg?
    decreases |toks|
  {
    if toks != [] {
      var n := |toks| - 1;
      var prev := toks[..n];
      ConsoleExactlyWhenFlagged(prev);
      assert forall k | 0 <= k < n :: prev[k] == toks[k];
      assert Apply(toks) == Step(Apply(prev), toks[n]);
    }
  }

  /** A path flag's value is taken verbatim, even when it looks like another flag. */
  lemma ValueTakenVerbatim(flag: string, value: string, rest: seq<string>)
    requires IsProjectFlag(flag)
    ensures Tokenize([flag, value] + rest) == [ProjectArg(flag, value)] + Tokenize(rest)
  {
    assert ([flag, value] + rest)[2..] == rest;
  }
}
