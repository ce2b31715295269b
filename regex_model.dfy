/**
 * Regular expressions are not interpreted: each pattern the analyzers use is an
 * uninterpreted function of the text it is applied to, producing the match
 * records that the analyzers then work on.
 */
module RegexModel {

  /** One match: the index where it starts and the values of its groups (group 0 is the whole match). */
  datatype Match = Match(index: nat, groups: seq<string>)

  /** Match.Groups[k].Value: a group the pattern lacks, or that took no part, reads as "". */
  function Group(m: Match, k: nat): string {
    if k < |m.groups| then m.groups[k] else ""
  }

  /** Regex.Matches(text): the matches in the order the engine reports them. */
  type Matcher = string -> seq<Match>

  /** Regex.IsMatch(text). */
  type Tester = string -> bool
}
