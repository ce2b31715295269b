/**
 * The brace-depth scan that ImplementationAnalyzer runs from a match position
 * to find where a method block ends. The source repeats the same loop in
 * DetectLongMethods, DetectUnusedParameters and DetectMissingReturnStatements;
 * here it is written once, as ScanBlockEnd, and specified by BlockEnd.
 *
 * The scan starts AT the match index (the access keyword, not the first `{`)
 * and tests the depth after every character, so it stops on the very first
 * character unless that character is a brace.
 */
module BraceScan {

  /** How one character moves the brace depth. */
  function Delta(c: char): int {
    if c == '{' then 1 else if c == '}' then -1 else 0
  }

  /** The number of `{` minus the number of `}` in `s`. */
  function Balance(s: string): int
    decreases |s|
  {
    if s == [] then 0 else Balance(s[..|s| - 1]) + Delta(s[|s| - 1])
  }

  /** The depth the scan holds after reading content[i], having started at `start`. */
  function Depth(content: string, start: nat, i: nat): int
    requires start <= i < |content|
  {
    Balance(content[start..i + 1])
  }

  /** `e` is the first index at or after `start` where the depth is zero. */
  predicate ClosesAt(content: string, start: nat, e: int) {
    start <= e < |content| && Depth(content, start, e) == 0 &&
    forall j | start <= j < e :: Depth(content, start, j) != 0
  }

  /**
   * Where the scan from `start` stops: the first index whose depth is zero,
   * or -1 when the depth never returns to zero before the end of the text.
   */
  function BlockEnd(content: string, start: nat): (e: int)
    ensures e == -1 || ClosesAt(content, start, e)
    ensures e == -1 <==> forall j | start <= j < |content| :: Depth(content, start, j) != 0
  {
    FirstZeroFrom(content, start, start)
  }

  /** BlockEnd, searching from `i` onwards once the depth is known to be non-zero before `i`. */
  function FirstZeroFrom(content: string, start: nat, i: nat): (e: int)
    requires start <= i
    requires forall j | start <= j < i && j < |content| :: Depth(content, start, j) != 0
    ensures e == -1 || ClosesAt(content, start, e)
    ensures e == -1 <==> forall j | start <= j < |content| :: Depth(content, start, j) != 0
    decreases |content| - i
  {
    if i >= |content| then -1
    else if Depth(content, start, i) == 0 then i
    else FirstZeroFrom(content, start, i + 1)
  }

  /** Reading one more character moves the depth by that character's Delta. */
  lemma DepthStep(content: string, start: nat, i: nat)
    requires start <= i && i + 1 < |content|
    ensures Depth(content, start, i + 1) == Depth(content, start, i) + Delta(content[i + 1])
  {
    assert content[start..i + 2][..i + 1 - start] == content[start..i + 1];
  }

  /** The first character read sets the depth to its own Delta. */
  lemma DepthAtStart(content: string, start: nat)
    requires start < |content|
    ensures Depth(content, start, start) == Delta(content[start])
  {
    var s := content[start..start + 1];
    assert |s| == 1 && s[..0] == [] && s[0] == content[start];
    assert Balance(s) == Balance(s[..0]) + Delta(s[0]);
  }

  /** The index loop of ImplementationAnalyzer.cs (lines 84-96): count braces, stop at depth zero. */
  method ScanBlockEnd(content: string, start: nat) returns (end: int)
    ensures end == BlockEnd(content, start)
  {
    var openBraces := 0;
    end := -1;
    var i := start;
    while i < |content|
      invariant start <= i
      invariant start <= |content| ==> i <= |content| && openBraces == Balance(content[start..i])
      invariant forall j | start <= j < i && j < |content| :: Depth(content, start, j) != 0
      decreases |content| - i
    {
      if content[i] == '{' {
        openBraces := openBraces + 1;
      } else if content[i] == '}' {
        openBraces := openBraces - 1;
      }
      assert content[start..i + 1][..i - start] == content[start..i];
      assert openBraces == Depth(content, start, i);
      if openBraces == 0 {
        end := i;
        break;
      }
      i := i + 1;
    }
    if end != -1 {
      ClosesAtUnique(content, start, end, BlockEnd(content, start));
    }
  }

  /** At most one index is where the depth first returns to zero. */
  lemma ClosesAtUnique(content: string, start: nat, e1: int, e2: int)
    requires ClosesAt(content, start, e1) && ClosesAt(content, start, e2)
    ensures e1 == e2
  {
  }

  /**
   * A scan that starts on a character that is not a brace stops right there:
   * the end it reports equals its start.
   */
  lemma ScanStopsAtNonBrace(content: string, start: nat)
    requires start < |content| && content[start] != '{' && content[start] != '}'
    ensures BlockEnd(content, start) == start
  {
    DepthAtStart(content, start);
  }

  /** Starting on `{`, the depth stays at least one up to (not including) where the scan stops. */
  lemma {:induction false} DepthPositiveBeforeEnd(content: string, start: nat, e: int, j: nat)
    requires start < |content| && content[start] == '{'
    requires ClosesAt(content, start, e)
    requires start <= j < e
    ensures Depth(content, start, j) >= 1
    decreases j - start
  {
    if j == start {
      DepthAtStart(content, start);
    } else {
      DepthPositiveBeforeEnd(content, start, e, j - 1);
      DepthStep(content, start, j - 1);
    }
  }

  /**
   * A block that opens with `{` and closes: the scan stops on a `}`, and the
   * text from the opening brace up to (not including) it holds exactly one
   * more `{` than `}`.
   */
  lemma ClosedBlockShape(content: string, start: nat)
    requires start < |content| && content[start] == '{'
    requires BlockEnd(content, start) != -1
    ensures var e := BlockEnd(content, start);
      start < e < |content| && content[e] == '}' && Balance(content[start..e]) == 1
  {
    var e := BlockEnd(content, start);
    DepthAtStart(content, start);
    assert e != start;
    DepthPositiveBeforeEnd(content, start, e, e - 1);
    DepthStep(content, start, e - 1);
  }

  /** Starting on `{`, the depth never drops to zero while no `}` has been read. */
  lemma {:induction false} DepthPositiveWithoutCloser(content: string, start: nat, j: nat)
    requires start < |content| && content[start] == '{'
    requires start <= j < |content|
    requires forall k | start <= k < |content| :: content[k] != '}'
    ensures Depth(content, start, j) >= 1
    decreases j - start
  {
    if j == start {
      DepthAtStart(content, start);
    } else {
      DepthPositiveWithoutCloser(content, start, j - 1);
      DepthStep(content, start, j - 1);
    }
  }

  /** A block whose opening `{` is never followed by a `}` is not closed: the scan reports -1. */
  lemma UnclosedBlock(content: string, start: nat)
    requires start < |content| && content[start] == '{'
    requires forall k | start <= k < |content| :: content[k] != '}'
    ensures BlockEnd(content, start) == -1
  {
    forall j | start <= j < |content| ensures Depth(content, start, j) != 0 {
      DepthPositiveWithoutCloser(content, start, j);
    }
  }
}
