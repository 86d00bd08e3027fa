/** MatchFinder: looks a match up by its exact (case-sensitive) home and
    away team names. */
module MatchFinder {
  import opened Failures
  import opened MatchRecord
  import opened Lists

  /** The match is between exactly these two teams, in this order. */
  predicate IsBetween(m: Match, homeTeam: string, awayTeam: string)
  {
    m.homeTeamName == homeTeam && m.awayTeamName == awayTeam
  }

  /** The position Stream.filter(...).findFirst() stops at: the first match
      between the two teams, or the length of the list when there is none. */
  function FirstIndexBetween(matches: seq<Match>, homeTeam: string, awayTeam: string): (k: nat)
    ensures k <= |matches|
    ensures forall j :: 0 <= j < k ==> !IsBetween(matches[j], homeTeam, awayTeam)
    ensures k < |matches| ==> IsBetween(matches[k], homeTeam, awayTeam)
  {
    if matches == [] || IsBetween(matches[0], homeTeam, awayTeam) then 0
    else 1 + FirstIndexBetween(matches[1..], homeTeam, awayTeam)
  }

  /** The first match between the two teams, or NoMatchFound naming them. */
  function FindMatch(homeTeam: string, awayTeam: string, matches: seq<Match>): (r: Result<Match>)
    ensures r.Success? <==> exists i :: 0 <= i < |matches| && IsBetween(matches[i], homeTeam, awayTeam)
    ensures r.Success? ==> IsBetween(r.value, homeTeam, awayTeam) && r.value in matches
    ensures r.Failure? ==> r.error == NoMatchFound(homeTeam, awayTeam)
  {
    var k := FirstIndexBetween(matches, homeTeam, awayTeam);
    if k < |matches| then Success(matches[k]) else Failure(NoMatchFound(homeTeam, awayTeam))
  }

  /** List.remove applied to the match that was found removes it at its own
      position: record equality cannot make it drop an earlier match. */
  lemma RemoveFoundMatch(homeTeam: string, awayTeam: string, matches: seq<Match>)
    requires FindMatch(homeTeam, awayTeam, matches).Success?
    ensures var k := FirstIndexBetween(matches, homeTeam, awayTeam);
      && k < |matches| && FindMatch(homeTeam, awayTeam, matches).value == matches[k]
      && RemoveFirst(matches, matches[k]) == matches[..k] + matches[k + 1..]
  {
    var k := FirstIndexBetween(matches, homeTeam, awayTeam);
    RemoveFirstAt(matches, k);
  }
}
