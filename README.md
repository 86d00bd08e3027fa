# ScoreBoard — a Dafny model

A live football score board. It holds the list of ongoing matches, each
with a home team, an away team, their scores and a start marker. It has
four operations:

- start a match at 0 - 0;
- finish (remove) a match;
- replace a match's score;
- produce a summary. The summary orders matches by total goals, most
  first, and among equal totals the match started most recently comes
  first.

Each mutating operation validates its arguments first and throws
`IllegalArgumentException` with a message naming the broken rule (and,
for a missing match or a team already on the board, the team names). The
summary validates nothing and throws nothing.

The model follows the Java implementation class `ScoreBoardImpl` and the
`Match` record.

- `Match` is a Dafny datatype, since it is an immutable value in Java.
- The board is a Dafny class, `ScoreBoard.ScoreBoardImpl`. Its field
  `ongoingMatches: seq<Match>` is reassigned by its methods, just as the
  Java list is mutated in place. Its field `clock` hands out start markers.
- The validators, the lookup and the summary order are pure functions.
- A thrown exception becomes a returned `Failed(error)` or
  `Failure(error)` value. On that path the board is left unchanged.
- A Java `String` argument that may be null is an `Option<string>`.
- A Java `int` score is the subset type `Int32`.

Modules, in dependency order:

- `Failures`: option and result types, the error kinds and their messages.
- `JavaText`: the `String` operations the board uses:
  - `isBlank`;
  - `equalsIgnoreCase`;
  - the decimal rendering of an `int`, with its inverse.
- `MatchRecord`: the `Match` value and its `toString`.
- `Lists`: `List.remove(Object)`.
- `MatchDataValidator`: the four argument checks.
- `MatchFinder`: lookup of a match by its exact pair of names.
- `Ranking`: the summary order, as written and as intended.
- `Invariants`: what every board state satisfies, and that each operation
  preserves it.
- `ScoreBoard`: the board class.
- `Scenarios`: the unit tests replayed as clients of the class.

The board invariant (`Invariants.BoardInvariant`, the class's `Valid()`)
states four things:

- No team name fills two slots on the board, ignoring case.
- Names are not blank.
- Scores are not negative.
- Start markers are distinct and below the next marker.

Because markers are distinct, the summary order is total. Any list of the
ongoing matches in that order is therefore the same list (see
`Ranking.StrictlyRankedIsUnique`).

## Model

| member | source | states |
|---|---|---|
| Failures.Message | src/main/java/com/sportsradar/scoreboard/ScoreBoardImpl.java:50 | The exception texts of ScoreBoardImpl.java lines 50, 60, 65, 78 and 84. The already-on-board text starts with the offending team's name. The lookup text names the home team at its fixed place after "No match found for " and ends with the away team's name. |
| Failures.MessagesOfTests | src/test/java/ScoreBoardTest.java:53-55 | The lookup failure for HomeTeam and AwayTeam reads "No match found for HomeTeam and AwayTeam". The null-or-blank failure reads "Team name can't be null or empty." |
| JavaText.IsBlank | src/main/java/com/sportsradar/scoreboard/ScoreBoardImpl.java:58-59 | `String.isBlank`: the empty string is blank; a string whose first character is not white space is not; every character of a blank string is white space. |
| JavaText.EqualsIgnoreCase | src/main/java/com/sportsradar/scoreboard/ScoreBoardImpl.java:67 | `String.equalsIgnoreCase`: equal strings are equal ignoring case, and strings equal ignoring case have the same length. |
| JavaText.EqualsIgnoreCaseIsFoldedEquality | src/main/java/com/sportsradar/scoreboard/ScoreBoardImpl.java:77 | Two names are equal ignoring case exactly when their case-folded forms are the same string. |
| JavaText.NatToStringRoundTrip | src/main/java/com/sportsradar/scoreboard/Match.java:6 | The decimal text of a natural number parses back to that number. |
| JavaText.IntToString | src/main/java/com/sportsradar/scoreboard/Match.java:6 | The text an int score takes in string concatenation is decimal: an optional minus sign followed by at least one digit. |
| JavaText.IntToStringRoundTrip | src/main/java/com/sportsradar/scoreboard/Match.java:6 | The decimal text of an int, with a minus sign when negative, parses back to that int. |
| MatchRecord.RenderingRoundTrip | src/main/java/com/sportsradar/scoreboard/Match.java:4-7 | This is the contract of `MatchRecord.Match.ToString`. Given the team names, the text of a match gives back both of its scores. Nothing the text hides can change the score it shows. |
| MatchRecord.RenderingDeterminesScore | src/main/java/com/sportsradar/scoreboard/Match.java:4-7 | Two matches between the same teams that render alike have equal home scores and equal away scores. |
| MatchRecord.FreshMatchRendering | src/main/java/com/sportsradar/scoreboard/ScoreBoardImpl.java:16 | A match as it is started reads "<home> 0 - <away> 0". |
| Lists.RemoveFirst | src/main/java/com/sportsradar/scoreboard/ScoreBoardImpl.java:22 | `List.remove(Object)` leaves the list as it was when the element is absent. Otherwise the list is one element shorter. |
| Lists.RemoveFirstContents | src/main/java/com/sportsradar/scoreboard/ScoreBoardImpl.java:31 | Removal takes exactly one occurrence of the element out of the list's contents (as a multiset), and nothing else. |
| Lists.RemoveFirstAt | src/main/java/com/sportsradar/scoreboard/ScoreBoardImpl.java:31 | Removing an element that does not occur earlier removes it at its own position: the list becomes the prefix before it followed by the suffix after it. |
| MatchDataValidator.ValidateTeamNamesAreNotNullOrEmpty | src/main/java/com/sportsradar/scoreboard/ScoreBoardImpl.java:57-62 | Passes if and only if both names are present and each holds a character that is not white space. Otherwise the error is the null-or-empty error. |
| MatchDataValidator.ValidateTeamsNamesAreNotSame | src/main/java/com/sportsradar/scoreboard/ScoreBoardImpl.java:76-80 | Passes if and only if the case-folded names differ. Otherwise the error is the same-names error. |
| MatchDataValidator.AnyMatchPlays | src/main/java/com/sportsradar/scoreboard/ScoreBoardImpl.java:66-67 | The `anyMatch` scan is true exactly when some ongoing match has the team, ignoring case, as home or away. |
| MatchDataValidator.ValidateTeamsAreNotPresentOnScoreboard | src/main/java/com/sportsradar/scoreboard/ScoreBoardImpl.java:64-74 | Passes if and only if neither team plays in any ongoing match. It reports the home team exactly when the home team plays. Any error names one of the two input names. |
| MatchDataValidator.ValidateIfScoreUpdateValueIsNegative | src/main/java/com/sportsradar/scoreboard/ScoreBoardImpl.java:82-86 | Passes if and only if both scores are at least 0. Otherwise the error is the negative-score error. |
| MatchDataValidator.StartNewMatchChecks | src/main/java/com/sportsradar/scoreboard/ScoreBoardImpl.java:13-15 | The three start checks in their order. A start fails only with the null-or-empty error, or, once both names are present, with the same-names error or an on-board error naming one of the two given names. |
| MatchDataValidator.StartNewMatchAccepts | src/main/java/com/sportsradar/scoreboard/ScoreBoardImpl.java:12-15 | The start checks pass if and only if three things hold: both names are present and not blank; they differ ignoring case; and neither plays on the board. |
| MatchDataValidator.BlankNameIsCheckedFirst | src/main/java/com/sportsradar/scoreboard/ScoreBoardImpl.java:13 | A null or blank name is reported as such, whatever else is wrong. |
| MatchDataValidator.SameNamesAreRefused | src/main/java/com/sportsradar/scoreboard/ScoreBoardImpl.java:14 | Two non-blank names equal ignoring case are refused as the same team, whatever is on the board. |
| MatchDataValidator.TeamOnBoardIsRefused | src/main/java/com/sportsradar/scoreboard/ScoreBoardImpl.java:15 | When either valid name plays on the board, the start is refused. The error names the home team if it plays, and the away team otherwise. |
| MatchFinder.FirstIndexBetween | src/main/java/com/sportsradar/scoreboard/ScoreBoardImpl.java:46-49 | `filter(...).findFirst()` stops at the first match with exactly these home and away names. No earlier match has them. It returns the list length when none does. |
| MatchFinder.FindMatch | src/main/java/com/sportsradar/scoreboard/ScoreBoardImpl.java:45-51 | The lookup succeeds if and only if some match has exactly these names, and the match it returns is on the board with those names. On failure the error is NoMatchFound naming both teams. |
| MatchFinder.RemoveFoundMatch | src/main/java/com/sportsradar/scoreboard/ScoreBoardImpl.java:22 | Removing the found match by record equality removes it at its own index and no other match. |
| Ranking.WrappedTotalMisranks | src/main/java/com/sportsradar/scoreboard/ScoreBoardImpl.java:38 | Under the int sum as written, a match scored 2147483647 - 1 is listed after a later goalless match, although it has more goals. |
| Ranking.WrapInt32 | src/main/java/com/sportsradar/scoreboard/ScoreBoardImpl.java:38 | Java int addition: the result is in the int range, congruent to the exact sum modulo 2^32, and equal to it when the sum fits. |
| Ranking.TotalAsWritten | src/main/java/com/sportsradar/scoreboard/ScoreBoardImpl.java:38 | The comparator's key `homeScore() + awayScore()`: congruent to the number of goals modulo 2^32, and equal to it when that fits in an int. |
| Ranking.PrecedesAsWritten | src/main/java/com/sportsradar/scoreboard/ScoreBoardImpl.java:38-39 | The comparator as written, on the wrapping key. When neither total leaves the int range, it agrees with the intended order in both directions. |
| Ranking.InsertByRank | src/main/java/com/sportsradar/scoreboard/ScoreBoardImpl.java:37-40 | Inserting a match into a list in summary order keeps the list in summary order. The result holds the old matches plus the new one (as a multiset). |
| Ranking.SortByRank | src/main/java/com/sportsradar/scoreboard/ScoreBoardImpl.java:37-40 | The sorted list is in summary order and is a permutation of its input. |
| Ranking.DistinctStartsPermutation | src/main/java/com/sportsradar/scoreboard/ScoreBoardImpl.java:39 | A permutation of matches with distinct start markers still has distinct start markers. |
| Ranking.StrictlyRankedIsUnique | src/main/java/com/sportsradar/scoreboard/ScoreBoardImpl.java:38-39 | Two lists in strict summary order with the same matches are the same list. The summary does not depend on how it was sorted. |
| Ranking.SortByRankIsTheSummaryOrder | src/main/java/com/sportsradar/scoreboard/ScoreBoardImpl.java:36-41 | With distinct start markers, the sort leaves no ties. Every strictly ordered permutation of the board equals the sort's result. |
| Invariants.StartKeepsInvariant | src/main/java/com/sportsradar/scoreboard/ScoreBoardImpl.java:12-17 | Appending a 0 - 0 match that passed the start checks, stamped with the next marker, preserves the board invariant. |
| Invariants.RemoveKeepsInvariant | src/main/java/com/sportsradar/scoreboard/ScoreBoardImpl.java:20-23 | Removing any one match preserves the board invariant. |
| Invariants.ReplaceKeepsInvariant | src/main/java/com/sportsradar/scoreboard/ScoreBoardImpl.java:29-32 | The update preserves the board invariant. The update removes a match and appends one between the same teams, with the same start marker and non-negative scores. |
| Invariants.AtMostOneMatchBetween | src/main/java/com/sportsradar/scoreboard/ScoreBoardImpl.java:45-51 | On a valid board, at most one match has a given pair of exact names, so the lookup's choice is unambiguous. |
| ScoreBoard.ScoreBoardImpl.constructor | src/main/java/com/sportsradar/scoreboard/ScoreBoardImpl.java:9 | A new board is empty, valid, and has handed out no marker. |
| ScoreBoard.ScoreBoardImpl.StartNewMatch | src/main/java/com/sportsradar/scoreboard/ScoreBoardImpl.java:12-17 | The outcome is that of the three checks, in order. On success the list is the old list plus a 0 - 0 match between the two names, stamped with a marker later than all earlier ones. On failure nothing changes. The board stays valid. |
| ScoreBoard.ScoreBoardImpl.FinishMatch | src/main/java/com/sportsradar/scoreboard/ScoreBoardImpl.java:20-23 | A blank or null name fails first. Otherwise the call succeeds if and only if a match has exactly these names, and it removes that match at its own position, changing nothing else. On failure nothing changes. |
| ScoreBoard.ScoreBoardImpl.RemoveFound | src/main/java/com/sportsradar/scoreboard/ScoreBoardImpl.java:22 | Removing the match the lookup returned deletes exactly the entry at its index and keeps the board valid. |
| ScoreBoard.ScoreBoardImpl.UpdateScore | src/main/java/com/sportsradar/scoreboard/ScoreBoardImpl.java:26-33 | Failures come in order: a blank name, then a negative score, then no match with exactly these names. On success the match is removed from its place and re-appended with the new scores and its old start marker. On failure nothing changes. |
| ScoreBoard.ScoreBoardImpl.GetScoreBoardSummary | src/main/java/com/sportsradar/scoreboard/ScoreBoardImpl.java:36-41 | The summary is a permutation of the ongoing matches. Each match has more goals than every later one, or as many and a later start. |
| Scenarios.SortedScenarioSummary | src/test/java/ScoreBoardTest.java:92-97 | Any list that satisfies the summary's contract for the four matches of the sorted-summary test is HomeTeam2 0-10, HomeTeam1 10-0, HomeTeam3 0-0, HomeTeam 0-0. |
| Scenarios.SortedSummary | src/test/java/ScoreBoardTest.java:82-98 | The calls of the sorted-summary test, run against the class, give a board whose summary is exactly that list. |
| Scenarios.NilTenRenders | src/test/java/ScoreBoardTest.java:94 | The leading match renders as "HomeTeam2 0 - AwayTeam2 10". |
| Scenarios.TenNilRenders | src/test/java/ScoreBoardTest.java:95 | The second match renders as "HomeTeam1 10 - AwayTeam1 0". |
| Scenarios.GoallessRender | src/test/java/ScoreBoardTest.java:96-97 | The goalless matches render as "HomeTeam3 0 - AwayTeam3 0" and "HomeTeam 0 - AwayTeam 0". |
| Scenarios.AlreadyOnBoardRow | src/test/java/ScoreBoardTest.java:100-120 | Each of the test's four argument rows is refused with HomeTeam - AwayTeam on the board, naming the team already on it. |
| Scenarios.LookupIsCaseSensitive | src/main/java/com/sportsradar/scoreboard/ScoreBoardImpl.java:47-48 | The lookup of HOMETEAM and AWAYTEAM fails while HomeTeam - AwayTeam is on the board. Meanwhile the start check refuses HOMETEAM as already on the board. |
| Scenarios.RefusedArguments | src/test/java/ScoreBoardTest.java:122-163 | On a new board, a start with a null home name, a null away name or both is refused as null or empty, and a start with the same name twice is refused as the same team. |
| Scenarios.NegativeScoreRows | src/test/java/ScoreBoardTest.java:129-147 | On a board holding HomeTeam - AwayTeam, the class's `UpdateScore` refuses each of the three score pairs with the negative-score error and leaves the board holding only that 0 - 0 match. |

## Left out

- The `ScoreBoard` interface declares the four operations and has no logic. It is modelled only through the class.
- `getScoreForTeam` has no code in this implementation, so it is not modelled.
- `System.nanoTime()` is a `nat` counter. Each start reads it once and the next start reads a larger value. Real clock values, `long` range and equal readings on a coarse clock are not modelled.
- `Match.java` declares four components. `ScoreBoardImpl` builds it with a fifth, the start time, and reads `startTime()`. The model follows `ScoreBoardImpl` and gives `Match` the five fields.
- Finish and update look a match up with exact, case-sensitive `equals`, while the start checks compare names with `equalsIgnoreCase`. The model follows the code and does not look matches up ignoring case; `Scenarios.LookupIsCaseSensitive` shows the effect.
- JavaText.Fold: case folding covers ASCII letters only. `equalsIgnoreCase` also folds non-ASCII letters, and `String.length()` counts UTF-16 units; neither is modelled.
- The stream pipeline and `Comparator` objects of `getScoreBoardSummary` are replaced by an insertion sort. The actual list sort of the library is not modelled. `Ranking.SortByRankIsTheSummaryOrder` shows that any sort in the same order yields this same list on a valid board.
- ScoreBoard.ScoreBoardImpl.GetScoreBoardSummary: the class sorts by the corrected, non-wrapping total (`Ranking.Precedes`), not by the wrapping int key of the source (`Ranking.PrecedesAsWritten`). The two orders agree while every match's total fits in an int. When a total exceeds 2147483647 they differ: the source lists that match as if it had a negative total, the model lists it by its real number of goals (see "## Findings").
- ScoreBoard.ScoreBoardImpl.GetScoreBoardSummary: it requires the board invariant. The Java method sorts any list, but only lists with distinct start markers arise.
- Failures.MessagesOfTests: the text of the already-on-the-board message is defined in `Failures.Message` but not proved equal to a concrete string.
- Exceptions are returned values. Their propagation, stack traces and the exception class are not modelled.
- Concurrency: the Java list is not synchronised and the model is sequential.

## Findings

| source | as written | input that shows it | evidently intended | confidence | as-written member | corrected member |
|---|---|---|---|---|---|---|
| src/main/java/com/sportsradar/scoreboard/ScoreBoardImpl.java:38 | The summary key `homeScore() + awayScore()` is an `int` sum and wraps past 2147483647. | A match scored 2147483647 - 1, started first, and a goalless match started later: the wrapped key -2147483648 lists the 2147483648-goal match last. | The total number of goals orders matches, most first. | not executed | Ranking.WrappedTotalMisranks | Ranking.SortByRankIsTheSummaryOrder |
