/** ScoreBoardImpl: the board of ongoing matches and its four operations. */
module ScoreBoard {
  import opened Failures
  import opened JavaText
  import opened MatchRecord
  import opened Lists
  import opened MatchDataValidator
  import opened MatchFinder
  import opened Ranking
  import opened Invariants

  class ScoreBoardImpl {
    /** The ongoing matches, in the order the list holds them. */
    var ongoingMatches: seq<Match>
    /** The next start marker. It stands for System.nanoTime(), read each
        time a match starts: every reading is later than all earlier ones. */
    var clock: nat

    ghost predicate Valid()
      reads this
    {
      BoardInvariant(ongoingMatches, clock)
    }

    constructor ()
      ensures Valid() && ongoingMatches == [] && clock == 0
    {
      ongoingMatches := [];
      clock := 0;
    }

    /** Validates the names, then appends a 0 - 0 match between them stamped
        with a start marker later than every marker on the board. */
    method StartNewMatch(homeTeam: Option<string>, awayTeam: Option<string>) returns (outcome: Outcome)
      requires Valid()
      modifies this
      ensures Valid()
      ensures outcome == StartNewMatchChecks(homeTeam, awayTeam, old(ongoingMatches))
      ensures outcome.Done? ==>
        && ongoingMatches == old(ongoingMatches) + [Match(homeTeam.value, awayTeam.value, 0, 0, old(clock))]
        && clock == old(clock) + 1
      ensures outcome.Failed? ==> ongoingMatches == old(ongoingMatches) && clock == old(clock)
    {
      outcome := ValidateTeamNamesAreNotNullOrEmpty(homeTeam, awayTeam);
      if outcome.Failed? {
        return;
      }
      outcome := ValidateTeamsNamesAreNotSame(homeTeam.value, awayTeam.value);
      if outcome.Failed? {
        return;
      }
      outcome := ValidateTeamsAreNotPresentOnScoreboard(homeTeam.value, awayTeam.value, ongoingMatches);
      if outcome.Failed? {
        return;
      }
      StartKeepsInvariant(ongoingMatches, clock, homeTeam.value, awayTeam.value);
      ongoingMatches := ongoingMatches + [Match(homeTeam.value, awayTeam.value, 0, 0, clock)];
      clock := clock + 1;
    }

    /** Validates the names, then removes the match between exactly these
        two teams, which must be on the board. */
    method FinishMatch(homeTeam: Option<string>, awayTeam: Option<string>) returns (outcome: Outcome)
      requires Valid()
      modifies this
      ensures Valid() && clock == old(clock)
      ensures IsNullOrBlank(homeTeam) || IsNullOrBlank(awayTeam) ==> outcome == Failed(TeamNameNullOrEmpty)
      ensures !IsNullOrBlank(homeTeam) && !IsNullOrBlank(awayTeam) ==>
        outcome == if exists i :: 0 <= i < |old(ongoingMatches)| && IsBetween(old(ongoingMatches)[i], homeTeam.value, awayTeam.value)
                   then Done
                   else Failed(NoMatchFound(homeTeam.value, awayTeam.value))
      ensures outcome.Failed? ==> ongoingMatches == old(ongoingMatches)
      ensures outcome.Done? ==>
        exists k :: 0 <= k < |old(ongoingMatches)|
          && IsBetween(old(ongoingMatches)[k], homeTeam.value, awayTeam.value)
          && ongoingMatches == old(ongoingMatches)[..k] + old(ongoingMatches)[k + 1..]
    {
      outcome := ValidateTeamNamesAreNotNullOrEmpty(homeTeam, awayTeam);
      if outcome.Failed? {
        return;
      }
      var found := FindMatch(homeTeam.value, awayTeam.value, ongoingMatches);
      if found.Failure? {
        outcome := Failed(found.error);
        return;
      }
      RemoveFound(homeTeam.value, awayTeam.value, found.value);
    }

    /** ongoingMatches.remove(found), for the match the lookup returned. */
    method RemoveFound(homeTeam: string, awayTeam: string, found: Match)
      requires Valid()
      requires FindMatch(homeTeam, awayTeam, ongoingMatches) == Success(found)
      modifies this
      ensures Valid() && clock == old(clock)
      ensures exists k ::
                && 0 <= k < |old(ongoingMatches)|
                && IsBetween(old(ongoingMatches)[k], homeTeam, awayTeam)
                && ongoingMatches == old(ongoingMatches)[..k] + old(ongoingMatches)[k + 1..]
    {
      ghost var before := ongoingMatches;
      var k := FirstIndexBetween(ongoingMatches, homeTeam, awayTeam);
      RemoveFoundMatch(homeTeam, awayTeam, ongoingMatches);
      RemoveKeepsInvariant(ongoingMatches, clock, k);
      ongoingMatches := RemoveFirst(ongoingMatches, found);
      assert IsBetween(before[k], homeTeam, awayTeam) && ongoingMatches == before[..k] + before[k + 1..];
    }

    /** Validates the names and the scores, then replaces the match between
        exactly these two teams by one with the new scores and the same start
        marker, appended at the end of the list. */
    method UpdateScore(homeTeam: Option<string>, awayTeam: Option<string>, homeTeamScore: Int32, awayTeamScore: Int32)
      returns (outcome: Outcome)
      requires Valid()
      modifies this
      ensures Valid() && clock == old(clock)
      ensures IsNullOrBlank(homeTeam) || IsNullOrBlank(awayTeam) ==> outcome == Failed(TeamNameNullOrEmpty)
      ensures !IsNullOrBlank(homeTeam) && !IsNullOrBlank(awayTeam) && (homeTeamScore < 0 || awayTeamScore < 0) ==>
        outcome == Failed(NegativeScore)
      ensures !IsNullOrBlank(homeTeam) && !IsNullOrBlank(awayTeam) && homeTeamScore >= 0 && awayTeamScore >= 0 ==>
        outcome == if exists i :: 0 <= i < |old(ongoingMatches)| && IsBetween(old(ongoingMatches)[i], homeTeam.value, awayTeam.value)
                   then Done
                   else Failed(NoMatchFound(homeTeam.value, awayTeam.value))
      ensures outcome.Failed? ==> ongoingMatches == old(ongoingMatches)
      ensures outcome.Done? ==>
        exists k :: 0 <= k < |old(ongoingMatches)|
          && IsBetween(old(ongoingMatches)[k], homeTeam.value, awayTeam.value)
          && ongoingMatches == old(ongoingMatches)[..k] + old(ongoingMatches)[k + 1..]
               + [Match(homeTeam.value, awayTeam.value, homeTeamScore, awayTeamScore, old(ongoingMatches)[k].startTime)]
    {
      outcome := ValidateTeamNamesAreNotNullOrEmpty(homeTeam, awayTeam);
      if outcome.Failed? {
        return;
      }
      outcome := ValidateIfScoreUpdateValueIsNegative(homeTeamScore, awayTeamScore);
      if outcome.Failed? {
        return;
      }
      var found := FindMatch(homeTeam.value, awayTeam.value, ongoingMatches);
      if found.Failure? {
        outcome := Failed(found.error);
        return;
      }
      var matchToBeUpdated := found.value;
      var updatedMatch := Match(homeTeam.value, awayTeam.value, homeTeamScore, awayTeamScore, matchToBeUpdated.startTime);
      var k := FirstIndexBetween(ongoingMatches, homeTeam.value, awayTeam.value);
      RemoveFoundMatch(homeTeam.value, awayTeam.value, ongoingMatches);
      ReplaceKeepsInvariant(ongoingMatches, clock, k, homeTeamScore, awayTeamScore);
      ongoingMatches := RemoveFirst(ongoingMatches, matchToBeUpdated);
      ongoingMatches := ongoingMatches + [updatedMatch];
    }

    /** A new list of the ongoing matches in summary order: most goals first,
        and among equal totals the match started last first. */
    method GetScoreBoardSummary() returns (summary: seq<Match>)
      requires Valid()
      ensures multiset(summary) == multiset(ongoingMatches)
      ensures forall i, j :: 0 <= i < j < |summary| ==>
        Total(summary[i]) > Total(summary[j])
        || (Total(summary[i]) == Total(summary[j]) && summary[i].startTime > summary[j].startTime)
    {
      summary := SortByRank(ongoingMatches);
      DistinctStartsPermutation(ongoingMatches, summary);
      assert StrictlyRanked(summary);
    }
  }
}
