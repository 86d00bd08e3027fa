/** The ways an operation of the score board can fail, and the values that
    carry either a result or such a failure. The board's operations signal
    failure by throwing IllegalArgumentException; here they return one of
    these values instead. */
module Failures {

  /** A value that may be absent; a Java reference that may be null. */
  datatype Option<+T> = None | Some(value: T)

  /** Which validation rule rejected the call, with the offending names. */
  datatype Error =
    | TeamNameNullOrEmpty
    | SameTeamNames
    | TeamAlreadyOnBoard(team: string)
    | NegativeScore
    | NoMatchFound(homeTeam: string, awayTeam: string)

  /** The result of an operation that returns nothing when it succeeds. */
  datatype Outcome = Done | Failed(error: Error)

  /** The result of an operation that returns a value when it succeeds. */
  datatype Result<+T> = Success(value: T) | Failure(error: Error)

  /** The text of the exception thrown for each error. */
  function Message(e: Error): (r: string)
    ensures e.TeamAlreadyOnBoard? ==> |r| > |e.team| && r[..|e.team|] == e.team
    ensures e.NoMatchFound? ==>
      && |r| == 24 + |e.homeTeam| + |e.awayTeam|
      && r[19..19 + |e.homeTeam|] == e.homeTeam
      && r[|r| - |e.awayTeam|..] == e.awayTeam
  {
    match e
    case TeamNameNullOrEmpty => "Team name can't be null or empty."
    case SameTeamNames => "HomeTeam name and AwayTeam name can't be the same."
    case TeamAlreadyOnBoard(team) => team + " is already on the board. Can't add it to the board."
    case NegativeScore => "One of team scores is negative. Can't update match."
    case NoMatchFound(home, away) => "No match found for " + home + " and " + away
  }

  /** The messages the board's unit tests expect. */
  lemma MessagesOfTests()
    ensures Message(NoMatchFound("HomeTeam", "AwayTeam")) == "No match found for HomeTeam and AwayTeam"
    ensures Message(TeamNameNullOrEmpty) == "Team name can't be null or empty."
  {
  }
}
