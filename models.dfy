/**
 * The data holders (Enums/ProjectType.cs, Models/AnalysisResult.cs,
 * Models/ViolationDetail.cs) and the filtering both coordinators apply when
 * they collect per-file results.
 */
module Models {

  /** The kinds of .NET project the detector distinguishes. */
  datatype ProjectType = Unknown | ClassLibrary | WebApi | ConsoleApp | RazorApp

  /** The result for one analysed file; a coordinator sets only the path and the violations. */
  datatype AnalysisResult = AnalysisResult(filePath: string, violations: seq<string>, alerts: seq<string>)

  /** A rule description with an optional line number (-1 when absent); nothing in the core builds one. */
  datatype ViolationDetail = ViolationDetail(rule: string, lineNumber: int)

  /** A file as a coordinator sees it: the enumerated path and the text read from it. */
  datatype SourceFile = SourceFile(path: string, content: string)

  /** What one file contributes to the coordinator's list: a result only when it has violations. */
  function Retain(f: SourceFile, violations: seq<string>): seq<AnalysisResult> {
    if |violations| > 0 then [AnalysisResult(f.path, violations, [])] else []
  }

  /** The results a coordinator returns for `files`, whose violation lists are `lists`. */
  function KeepNonEmpty(files: seq<SourceFile>, lists: seq<seq<string>>): seq<AnalysisResult>
    requires |files| == |lists|
    decreases |files|
  {
    if files == [] then []
    else KeepNonEmpty(files[..|files| - 1], lists[..|lists| - 1]) + Retain(files[|files| - 1], lists[|lists| - 1])
  }

  /** The coordinators' loop step: one more file contributes its result, if any. */
  lemma KeepNonEmptyStep(files: seq<SourceFile>, lists: seq<seq<string>>, k: nat)
    requires |files| == |lists| && k < |files|
    ensures KeepNonEmpty(files[..k + 1], lists[..k + 1]) == KeepNonEmpty(files[..k], lists[..k]) + Retain(files[k], lists[k])
  {
    assert files[..k + 1][..k] == files[..k];
    assert lists[..k + 1][..k] == lists[..k];
  }

  /** The positions of the non-empty lists: strictly increasing, and all of them. */
  function NonEmptyPositions(lists: seq<seq<string>>): (idx: seq<nat>)
    ensures forall k | 0 <= k < |idx| :: idx[k] < |lists| && lists[idx[k]] != []
    ensures forall k1, k2 | 0 <= k1 < k2 < |idx| :: idx[k1] < idx[k2]
    ensures forall j | 0 <= j < |lists| && lists[j] != [] :: j in idx
    decreases |lists|
  {
    if lists == [] then []
    else
      var n := |lists| - 1;
      var prev := NonEmptyPositions(lists[..n]);
      assert forall k | 0 <= k < |prev| :: lists[..n][prev[k]] == lists[prev[k]];
      prev + (if lists[n] != [] then [n] else [])
  }

  /**
   * The coordinators' results follow the files: one result per file with a
   * non-empty list and none for the others, in file order, each carrying that
   * file's path and list and no alerts.
   */
  lemma {:induction false} KeepNonEmptyFollowsFiles(files: seq<SourceFile>, lists: seq<seq<string>>)
    requires |files| == |lists|
    ensures var rs := KeepNonEmpty(files, lists);
      var idx := NonEmptyPositions(lists);
      |rs| == |idx| &&
      forall k | 0 <= k < |rs| :: rs[k] == AnalysisResult(files[idx[k]].path, lists[idx[k]], [])
    decreases |files|
  {
    if files != [] {
      var n := |files| - 1;
      KeepNonEmptyFollowsFiles(files[..n], lists[..n]);
      var prevRs := KeepNonEmpty(files[..n], lists[..n]);
      var prev := NonEmptyPositions(lists[..n]);
      var rs := KeepNonEmpty(files, lists);
      var idx := NonEmptyPositions(lists);
      assert rs == prevRs + Retain(files[n], lists[n]);
      assert idx == prev + (if lists[n] != [] then [n] else []);
      forall k | 0 <= k < |rs|
        ensures rs[k] == AnalysisResult(files[idx[k]].path, lists[idx[k]], [])
      {
        if k < |prevRs| {
          assert rs[k] == prevRs[k] && idx[k] == prev[k];
          assert files[..n][prev[k]] == files[prev[k]] && lists[..n][prev[k]] == lists[prev[k]];
        }
      }
    }
  }
}
