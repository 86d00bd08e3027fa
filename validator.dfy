/** MatchDataValidator: the four argument checks of the board. Each one
    either lets the call go on (Done) or names the rule it broke. */
module MatchDataValidator {
  import opened Failures
  import opened JavaText
  import opened MatchRecord

  /** A Java String argument that is null or blank. */
  predicate IsNullOrBlank(name: Option<string>)
  {
    name.None? || IsBlank(name.value)
  }

  /** Both names must be present and hold at least one non-white-space
      character. */
  function ValidateTeamNamesAreNotNullOrEmpty(homeTeamName: Option<string>, awayTeamName: Option<string>): (r: Outcome)
    ensures r.Done? <==>
      && homeTeamName.Some? && (exists i :: 0 <= i < |homeTeamName.value| && !IsWhitespace(homeTeamName.value[i]))
      && awayTeamName.Some? && (exists i :: 0 <= i < |awayTeamName.value| && !IsWhitespace(awayTeamName.value[i]))
    ensures r.Failed? ==> r.error == TeamNameNullOrEmpty
  {
    if IsNullOrBlank(homeTeamName) || IsNullOrBlank(awayTeamName) then Failed(TeamNameNullOrEmpty) else Done
  }

  /** Home and away must not be the same team, ignoring case. */
  function ValidateTeamsNamesAreNotSame(homeTeamName: string, awayTeamName: string): (r: Outcome)
    ensures r.Done? <==> FoldString(homeTeamName) != FoldString(awayTeamName)
    ensures r.Failed? ==> r.error == SameTeamNames
  {
    EqualsIgnoreCaseIsFoldedEquality(homeTeamName, awayTeamName);
    if EqualsIgnoreCase(homeTeamName, awayTeamName) then Failed(SameTeamNames) else Done
  }

  /** The match plays the named team, ignoring case, on either side. */
  predicate Plays(m: Match, team: string)
  {
    EqualsIgnoreCase(m.homeTeamName, team) || EqualsIgnoreCase(m.awayTeamName, team)
  }

  /** Stream.anyMatch over the ongoing matches: some match plays the team. */
  function AnyMatchPlays(matches: seq<Match>, team: string): (r: bool)
    ensures r <==> exists i :: 0 <= i < |matches| && Plays(matches[i], team)
  {
    if matches == [] then false
    else Plays(matches[0], team) || AnyMatchPlays(matches[1..], team)
  }

  /** Neither team may already be on the board; the home team is looked at
      first, and the error names the team found. */
  function ValidateTeamsAreNotPresentOnScoreboard(homeTeamName: string, awayTeamName: string, ongoingMatches: seq<Match>): (r: Outcome)
    ensures r.Done? <==> forall i :: 0 <= i < |ongoingMatches| ==> !Plays(ongoingMatches[i], homeTeamName) && !Plays(ongoingMatches[i], awayTeamName)
    ensures r == Failed(TeamAlreadyOnBoard(homeTeamName)) <==> exists i :: 0 <= i < |ongoingMatches| && Plays(ongoingMatches[i], homeTeamName)
    ensures r.Failed? ==> r.error == TeamAlreadyOnBoard(homeTeamName) || r.error == TeamAlreadyOnBoard(awayTeamName)
  {
    if AnyMatchPlays(ongoingMatches, homeTeamName) then Failed(TeamAlreadyOnBoard(homeTeamName))
    else if AnyMatchPlays(ongoingMatches, awayTeamName) then Failed(TeamAlreadyOnBoard(awayTeamName))
    else Done
  }

  /** Neither new score may be negative. */
  function ValidateIfScoreUpdateValueIsNegative(homeTeamScore: Int32, awayTeamScore: Int32): (r: Outcome)
    ensures r.Done? <==> homeTeamScore >= 0 && awayTeamScore >= 0
    ensures r.Failed? ==> r.error == NegativeScore
  {
    if homeTeamScore < 0 || awayTeamScore < 0 then Failed(NegativeScore) else Done
  }

  /** The checks startNewMatch runs, in its order: the first that fails
      decides. A start never fails for a score or a missing match, and an
      on-board error names one of the two names given. */
  function StartNewMatchChecks(homeTeam: Option<string>, awayTeam: Option<string>, ongoingMatches: seq<Match>): (r: Outcome)
    ensures r.Failed? ==>
      || r.error == TeamNameNullOrEmpty
      || (&& homeTeam.Some? && awayTeam.Some?
          && (|| r.error == SameTeamNames
              || r.error == TeamAlreadyOnBoard(homeTeam.value)
              || r.error == TeamAlreadyOnBoard(awayTeam.value)))
  {
    match ValidateTeamNamesAreNotNullOrEmpty(homeTeam, awayTeam)
    case Failed(e) => Failed(e)
    case Done =>
      match ValidateTeamsNamesAreNotSame(homeTeam.value, awayTeam.value)
      case Failed(e) => Failed(e)
      case Done => ValidateTeamsAreNotPresentOnScoreboard(homeTeam.value, awayTeam.value, ongoingMatches)
  }

  /** Starting a match succeeds exactly when both names are present and not
      blank, differ ignoring case, and neither plays in an ongoing match. */
  lemma StartNewMatchAccepts(homeTeam: Option<string>, awayTeam: Option<string>, ongoingMatches: seq<Match>)
    ensures StartNewMatchChecks(homeTeam, awayTeam, ongoingMatches).Done? <==>
      && !IsNullOrBlank(homeTeam) && !IsNullOrBlank(awayTeam)
      && !EqualsIgnoreCase(homeTeam.value, awayTeam.value)
      && forall i :: 0 <= i < |ongoingMatches| ==>
           !Plays(ongoingMatches[i], homeTeam.value) && !Plays(ongoingMatches[i], awayTeam.value)
  {
    if !IsNullOrBlank(homeTeam) && !IsNullOrBlank(awayTeam) {
      EqualsIgnoreCaseIsFoldedEquality(homeTeam.value, awayTeam.value);
    }
  }

  /** A null or blank name is reported before anything else is checked. */
  lemma BlankNameIsCheckedFirst(homeTeam: Option<string>, awayTeam: Option<string>, ongoingMatches: seq<Match>)
    requires IsNullOrBlank(homeTeam) || IsNullOrBlank(awayTeam)
    ensures StartNewMatchChecks(homeTeam, awayTeam, ongoingMatches) == Failed(TeamNameNullOrEmpty)
  {
  }

  /** Two names equal ignoring case are refused as the same team, whatever
      is on the board. */
  lemma SameNamesAreRefused(homeTeam: string, awayTeam: string, ongoingMatches: seq<Match>)
    requires !IsBlank(homeTeam) && !IsBlank(awayTeam)
    requires FoldString(homeTeam) == FoldString(awayTeam)
    ensures StartNewMatchChecks(Some(homeTeam), Some(awayTeam), ongoingMatches) == Failed(SameTeamNames)
  {
  }

  /** A team that plays in an ongoing match, ignoring case, cannot start
      another one, on either side; the error names it, except that a home
      team on the board is reported before an away team on the board. */
  lemma TeamOnBoardIsRefused(homeTeam: string, awayTeam: string, ongoingMatches: seq<Match>, k: nat)
    requires !IsBlank(homeTeam) && !IsBlank(awayTeam) && !EqualsIgnoreCase(homeTeam, awayTeam)
    requires k < |ongoingMatches|
    requires Plays(ongoingMatches[k], homeTeam) || Plays(ongoingMatches[k], awayTeam)
    ensures StartNewMatchChecks(Some(homeTeam), Some(awayTeam), ongoingMatches) ==
      if exists i :: 0 <= i < |ongoingMatches| && Plays(ongoingMatches[i], homeTeam)
      then Failed(TeamAlreadyOnBoard(homeTeam))
      else Failed(TeamAlreadyOnBoard(awayTeam))
  {
    EqualsIgnoreCaseIsFoldedEquality(homeTeam, awayTeam);
  }
}
