/** The board's unit-test scenarios, replayed against the contracts of the
    model. */
module Scenarios {
  import opened Failures
  import opened JavaText
  import opened MatchRecord
  import opened MatchDataValidator
  import opened MatchFinder
  import opened Ranking
  import opened Invariants
  import opened ScoreBoard

  /** What a start of a match between two fresh names needs to know. */
  lemma NamesCanStart(home: string, away: string, matches: seq<Match>)
    requires |home| > 0 && |away| > 0 && !IsWhitespace(home[0]) && !IsWhitespace(away[0])
    requires Fold(home[0]) != Fold(away[0])
    requires forall i :: 0 <= i < |matches| ==> !Plays(matches[i], home) && !Plays(matches[i], away)
    ensures StartNewMatchChecks(Some(home), Some(away), matches) == Done
  {
    StartNewMatchAccepts(Some(home), Some(away), matches);
  }

  /** Names that differ, ignoring case, in their last character. */
  lemma LastCharacterDiffers(a: string, b: string)
    requires |a| == |b| > 0 && Fold(a[|a| - 1]) != Fold(b[|b| - 1])
    ensures !EqualsIgnoreCase(a, b)
  {
  }

  /** Starts a match between two names that pass every check, on a board
      whose list is known. */
  method StartFresh(board: ScoreBoardImpl, home: string, away: string, ghost before: seq<Match>)
    requires board.Valid() && board.ongoingMatches == before
    requires |home| > 0 && |away| > 0 && !IsWhitespace(home[0]) && !IsWhitespace(away[0])
    requires Fold(home[0]) != Fold(away[0])
    requires forall i :: 0 <= i < |before| ==> !Plays(before[i], home) && !Plays(before[i], away)
    modifies board
    ensures board.Valid() && board.clock == old(board.clock) + 1
    ensures board.ongoingMatches == before + [Match(home, away, 0, 0, old(board.clock))]
  {
    NamesCanStart(home, away, before);
    var o := board.StartNewMatch(Some(home), Some(away));
  }

  /** Updates the score of a match known to be on the board at position k. */
  method UpdateKnown(board: ScoreBoardImpl, k: nat, homeScore: Int32, awayScore: Int32, ghost before: seq<Match>)
    requires board.Valid() && board.ongoingMatches == before && k < |before|
    requires homeScore >= 0 && awayScore >= 0
    requires !IsBlank(before[k].homeTeamName) && !IsBlank(before[k].awayTeamName)
    modifies board
    ensures board.Valid() && board.clock == old(board.clock)
    ensures var m := before[k];
            board.ongoingMatches == before[..k] + before[k + 1..]
              + [Match(m.homeTeamName, m.awayTeamName, homeScore, awayScore, m.startTime)]
  {
    var m := board.ongoingMatches[k];
    var o := board.UpdateScore(Some(m.homeTeamName), Some(m.awayTeamName), homeScore, awayScore);
    assert o.Done?;
    ghost var j :| 0 <= j < |before| && IsBetween(before[j], m.homeTeamName, m.awayTeamName)
             && board.ongoingMatches == before[..j] + before[j + 1..]
                  + [Match(m.homeTeamName, m.awayTeamName, homeScore, awayScore, before[j].startTime)];
    AtMostOneMatchBetween(before, m.homeTeamName, m.awayTeamName, j, k);
  }

  // The matches of the sorted-summary test, with the markers the board
  // hands out: a match as started, and as its score was later set.
  const Goalless0 := Match("HomeTeam", "AwayTeam", 0, 0, 0)
  const Goalless1 := Match("HomeTeam1", "AwayTeam1", 0, 0, 1)
  const TenNil1 := Match("HomeTeam1", "AwayTeam1", 10, 0, 1)
  const Goalless2 := Match("HomeTeam2", "AwayTeam2", 0, 0, 2)
  const NilTen2 := Match("HomeTeam2", "AwayTeam2", 0, 10, 2)
  const Goalless3 := Match("HomeTeam3", "AwayTeam3", 0, 0, 3)

  /** None of the teams of the second and third matches of the test is on
      the board when they start. */
  lemma SortedScenarioNamesAreFreshEarly()
    ensures forall i :: 0 <= i < 1 ==> !Plays([Goalless0][i], "HomeTeam1") && !Plays([Goalless0][i], "AwayTeam1")
    ensures forall i :: 0 <= i < 2 ==> !Plays([Goalless0, TenNil1][i], "HomeTeam2") && !Plays([Goalless0, TenNil1][i], "AwayTeam2")
  {
    LastCharacterDiffers("HomeTeam1", "HomeTeam2");
    LastCharacterDiffers("HomeTeam1", "AwayTeam2");
    LastCharacterDiffers("AwayTeam1", "HomeTeam2");
    LastCharacterDiffers("AwayTeam1", "AwayTeam2");
  }

  /** Nor are the teams of the fourth match. */
  lemma SortedScenarioNamesAreFreshLate()
    ensures forall i :: 0 <= i < 3 ==>
      !Plays([Goalless0, TenNil1, Goalless2][i], "HomeTeam3") && !Plays([Goalless0, TenNil1, Goalless2][i], "AwayTeam3")
  {
    LastCharacterDiffers("HomeTeam1", "HomeTeam3");
    LastCharacterDiffers("HomeTeam1", "AwayTeam3");
    LastCharacterDiffers("AwayTeam1", "HomeTeam3");
    LastCharacterDiffers("AwayTeam1", "AwayTeam3");
    LastCharacterDiffers("HomeTeam2", "HomeTeam3");
    LastCharacterDiffers("HomeTeam2", "AwayTeam3");
    LastCharacterDiffers("AwayTeam2", "HomeTeam3");
    LastCharacterDiffers("AwayTeam2", "AwayTeam3");
  }

  /** A new board with the first two matches of the test started. */
  method StartFirstTwo() returns (board: ScoreBoardImpl)
    ensures fresh(board)
    ensures board.Valid() && board.clock == 2 && board.ongoingMatches == [Goalless0, Goalless1]
  {
    board := new ScoreBoardImpl();
    StartFresh(board, "HomeTeam", "AwayTeam", []);
    SortedScenarioNamesAreFreshEarly();
    StartFresh(board, "HomeTeam1", "AwayTeam1", [Goalless0]);
  }

  /** Then the second match is updated to 10 - 0. */
  method BuildSortedScenarioFirstHalf() returns (board: ScoreBoardImpl)
    ensures fresh(board)
    ensures board.Valid() && board.clock == 2 && board.ongoingMatches == [Goalless0, TenNil1]
  {
    board := StartFirstTwo();
    UpdateKnown(board, 1, 10, 0, [Goalless0, Goalless1]);
  }

  /** Then two more matches are started. */
  method StartNextTwo(board: ScoreBoardImpl)
    requires board.Valid() && board.clock == 2 && board.ongoingMatches == [Goalless0, TenNil1]
    modifies board
    ensures board.Valid() && board.clock == 4
    ensures board.ongoingMatches == [Goalless0, TenNil1, Goalless2, Goalless3]
  {
    SortedScenarioNamesAreFreshEarly();
    StartFresh(board, "HomeTeam2", "AwayTeam2", [Goalless0, TenNil1]);
    SortedScenarioNamesAreFreshLate();
    StartFresh(board, "HomeTeam3", "AwayTeam3", [Goalless0, TenNil1, Goalless2]);
  }

  /** And the first of those is updated to 0 - 10. */
  method BuildSortedScenario() returns (board: ScoreBoardImpl)
    ensures fresh(board)
    ensures board.Valid() && board.ongoingMatches == [Goalless0, TenNil1, Goalless3, NilTen2]
  {
    board := BuildSortedScenarioFirstHalf();
    StartNextTwo(board);
    UpdateKnown(board, 2, 0, 10, [Goalless0, TenNil1, Goalless2, Goalless3]);
  }

  /** Four matches in strict summary order can be listed in no other order. */
  lemma OnlyOrderOfFour(summary: seq<Match>, w: Match, x: Match, y: Match, z: Match)
    requires StrictlyRanked(summary) && multiset(summary) == multiset([w, x, y, z])
    requires Precedes(z, x) && Precedes(x, y) && Precedes(y, w)
    ensures summary == [z, x, y, w]
  {
    var order := [z, x, y, w];
    assert Precedes(z, y) && Precedes(z, w) && Precedes(x, w);
    assert StrictlyRanked(order);
    assert multiset(order) == multiset([w, x, y, z]);
    StrictlyRankedIsUnique(summary, order);
  }

  /** The rank order of the four matches of the sorted-summary test. */
  lemma SortedScenarioPrecedence()
    ensures Precedes(NilTen2, TenNil1) && Precedes(TenNil1, Goalless3) && Precedes(Goalless3, Goalless0)
  {
  }

  /** How the leading match of the summary renders. */
  lemma NilTenRenders(m: Match)
    requires m == NilTen2
    ensures m.ToString() == "HomeTeam2 0 - AwayTeam2 10"
  {
    assert IntToString(10) == "10";
  }

  /** How the runner-up renders. */
  lemma TenNilRenders(m: Match)
    requires m == TenNil1
    ensures m.ToString() == "HomeTeam1 10 - AwayTeam1 0"
  {
    assert IntToString(10) == "10";
  }

  /** How the two goalless matches render. */
  lemma GoallessRender(m: Match, n: Match)
    requires m == Goalless3 && n == Goalless0
    ensures m.ToString() == "HomeTeam3 0 - AwayTeam3 0"
    ensures n.ToString() == "HomeTeam 0 - AwayTeam 0"
  {
  }

  /** Any summary of the sorted-summary board, as the summary method
      describes it, lists the four matches in this one order. */
  lemma SortedScenarioSummary(summary: seq<Match>)
    requires multiset(summary) == multiset([Goalless0, TenNil1, Goalless3, NilTen2])
    requires forall i, j :: 0 <= i < j < |summary| ==>
      Total(summary[i]) > Total(summary[j])
      || (Total(summary[i]) == Total(summary[j]) && summary[i].startTime > summary[j].startTime)
    ensures summary == [NilTen2, TenNil1, Goalless3, Goalless0]
  {
    assert StrictlyRanked(summary);
    SortedScenarioPrecedence();
    OnlyOrderOfFour(summary, Goalless0, TenNil1, Goalless3, NilTen2);
  }

  /** The summary of the sorted-summary test: the later of the two ten-goal
      matches leads, and the goalless ones follow, the one started later
      first. */
  method SortedSummary() returns (summary: seq<Match>)
    ensures summary == [NilTen2, TenNil1, Goalless3, Goalless0]
  {
    var board := BuildSortedScenario();
    summary := board.GetScoreBoardSummary();
    SortedScenarioSummary(summary);
  }

  /** The same summary as the test reads it, line by line. */
  method SortedSummaryScenario()
  {
    var summary := SortedSummary();
    NilTenRenders(summary[0]);
    TenNilRenders(summary[1]);
    GoallessRender(summary[2], summary[3]);
    assert summary[0].ToString() == "HomeTeam2 0 - AwayTeam2 10";
    assert summary[1].ToString() == "HomeTeam1 10 - AwayTeam1 0";
    assert summary[2].ToString() == "HomeTeam3 0 - AwayTeam3 0";
    assert summary[3].ToString() == "HomeTeam 0 - AwayTeam 0";
  }

  /** Two names of different lengths that start with a visible character,
      against a board of one match that plays one of them: the start is
      refused naming the home team when it plays, else the away team. */
  lemma OnBoardRefusal(home: string, away: string, m: Match, team: string)
    requires |home| > 0 && !IsWhitespace(home[0]) && |away| > 0 && !IsWhitespace(away[0])
    requires |home| != |away|
    requires (team == home && Plays(m, home)) || (team == away && Plays(m, away) && !Plays(m, home))
    ensures StartNewMatchChecks(Some(home), Some(away), [m]) == Failed(TeamAlreadyOnBoard(team))
  {
    TeamOnBoardIsRefused(home, away, [m], 0);
  }

  /** The already-on-the-board test, one row of its arguments at a time:
      with HomeTeam - AwayTeam on the board, a new match with either team,
      on either side, is refused, and the error names that team. */
  lemma AlreadyOnBoardRow(homeTeam: string, awayTeam: string, existingOnBoard: string)
    requires (homeTeam, awayTeam, existingOnBoard) in
      [("HomeTeam", "OtherTeam", "HomeTeam"), ("AwayTeam", "OtherTeam", "AwayTeam"),
       ("OtherTeam", "HomeTeam", "HomeTeam"), ("OtherTeam", "AwayTeam", "AwayTeam")]
    ensures StartNewMatchChecks(Some(homeTeam), Some(awayTeam), [Goalless0]) == Failed(TeamAlreadyOnBoard(existingOnBoard))
  {
    assert Plays(Goalless0, "HomeTeam") && Plays(Goalless0, "AwayTeam");
    assert !Plays(Goalless0, "OtherTeam");
    OnBoardRefusal(homeTeam, awayTeam, Goalless0, existingOnBoard);
  }

  /** Lookup is exact while the on-board check ignores case: the board
      refuses to start a match for HOMETEAM, yet cannot find the match of
      HOMETEAM and AWAYTEAM to finish or update it. */
  lemma LookupIsCaseSensitive()
    ensures FindMatch("HOMETEAM", "AWAYTEAM", [Goalless0]) == Failure(NoMatchFound("HOMETEAM", "AWAYTEAM"))
    ensures StartNewMatchChecks(Some("HOMETEAM"), Some("OtherTeam"), [Goalless0]) == Failed(TeamAlreadyOnBoard("HOMETEAM"))
  {
    assert !IsBetween(Goalless0, "HOMETEAM", "AWAYTEAM");
    assert Plays(Goalless0, "HOMETEAM");
    OnBoardRefusal("HOMETEAM", "OtherTeam", Goalless0, "HOMETEAM");
  }

  /** The null-name and same-name tests, on a new board: each start is
      refused with the error the test expects. */
  lemma RefusedArguments()
    ensures StartNewMatchChecks(None, Some("AwayTeam"), []) == Failed(TeamNameNullOrEmpty)
    ensures StartNewMatchChecks(Some("HomeTeam"), None, []) == Failed(TeamNameNullOrEmpty)
    ensures StartNewMatchChecks(None, None, []) == Failed(TeamNameNullOrEmpty)
    ensures StartNewMatchChecks(Some("HomeTeam"), Some("HomeTeam"), []) == Failed(SameTeamNames)
  {
    assert !IsBlank("HomeTeam") by { assert !IsWhitespace("HomeTeam"[0]); }
  }

  /** The negative-score test: on a board holding HomeTeam - AwayTeam, each
      of its three score pairs is refused, and the board is left as it was. */
  method NegativeScoreRows() returns (outcomes: seq<Outcome>, matches: seq<Match>)
    ensures outcomes == [Failed(NegativeScore), Failed(NegativeScore), Failed(NegativeScore)]
    ensures matches == [Goalless0]
  {
    var board := new ScoreBoardImpl();
    StartFresh(board, "HomeTeam", "AwayTeam", []);
    assert !IsBlank("HomeTeam") && !IsBlank("AwayTeam");
    var first := board.UpdateScore(Some("HomeTeam"), Some("AwayTeam"), -1, 1);
    var second := board.UpdateScore(Some("HomeTeam"), Some("AwayTeam"), 1, -1);
    var third := board.UpdateScore(Some("HomeTeam"), Some("AwayTeam"), -1, -1);
    outcomes := [first, second, third];
    matches := board.ongoingMatches;
  }
}
