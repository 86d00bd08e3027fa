/** What stays true of the list of ongoing matches between calls: every
    team plays in at most one of them, and only once, ignoring case; names
    are not blank; scores are not negative; start markers are distinct and
    below the next marker to hand out. */
module Invariants {
  import opened Failures
  import opened JavaText
  import opened MatchRecord
  import opened MatchDataValidator
  import opened MatchFinder
  import opened Ranking

  /** The two matches have no team in common, ignoring case. */
  predicate ShareNoTeam(m: Match, n: Match)
  {
    !Plays(n, m.homeTeamName) && !Plays(n, m.awayTeamName)
  }

  /** No team name occupies two slots of the board, ignoring case. */
  predicate NoTeamTwice(matches: seq<Match>)
  {
    && (forall i :: 0 <= i < |matches| ==> !EqualsIgnoreCase(matches[i].homeTeamName, matches[i].awayTeamName))
    && (forall i, j :: 0 <= i < |matches| && 0 <= j < |matches| && i != j ==> ShareNoTeam(matches[i], matches[j]))
  }

  /** A match as the board keeps it, with start markers handed out below `next`. */
  predicate WellFormed(m: Match, next: nat)
  {
    && !IsBlank(m.homeTeamName) && !IsBlank(m.awayTeamName)
    && m.homeScore >= 0 && m.awayScore >= 0
    && 0 <= m.startTime < next
  }

  predicate BoardInvariant(matches: seq<Match>, next: nat)
  {
    && NoTeamTwice(matches)
    && DistinctStarts(matches)
    && forall i :: 0 <= i < |matches| ==> WellFormed(matches[i], next)
  }

  /** A match that passed startNewMatch's checks, appended with the next
      start marker, keeps the invariant. */
  lemma StartKeepsInvariant(matches: seq<Match>, next: nat, homeTeam: string, awayTeam: string)
    requires BoardInvariant(matches, next)
    requires StartNewMatchChecks(Some(homeTeam), Some(awayTeam), matches).Done?
    ensures BoardInvariant(matches + [Match(homeTeam, awayTeam, 0, 0, next)], next + 1)
  {
    StartNewMatchAccepts(Some(homeTeam), Some(awayTeam), matches);
    var m := Match(homeTeam, awayTeam, 0, 0, next);
    var r := matches + [m];
    assert forall q :: 0 <= q < |matches| ==> r[q] == matches[q];
    assert r[|matches|] == m;
    assert forall i :: 0 <= i < |r| ==> WellFormed(r[i], next + 1);
    assert DistinctStarts(r);
    forall i, j | 0 <= i < |r| && 0 <= j < |r| && i != j
      ensures ShareNoTeam(r[i], r[j])
    {
      if j == |matches| {
        assert !Plays(matches[i], homeTeam) && !Plays(matches[i], awayTeam);
      } else if i == |matches| {
        assert !Plays(matches[j], homeTeam) && !Plays(matches[j], awayTeam);
      }
    }
  }

  /** Removing one match keeps the invariant. */
  lemma RemoveKeepsInvariant(matches: seq<Match>, next: nat, k: nat)
    requires BoardInvariant(matches, next) && k < |matches|
    ensures BoardInvariant(matches[..k] + matches[k + 1..], next)
  {
    var r := matches[..k] + matches[k + 1..];
    assert forall q :: 0 <= q < |r| ==> r[q] == matches[if q < k then q else q + 1];
    DistinctStartsWithout(matches, k);
  }

  /** Replacing a match by one between the same teams, with the same start
      marker and scores that are not negative, moved to the end of the list,
      keeps the invariant. */
  lemma ReplaceKeepsInvariant(matches: seq<Match>, next: nat, k: nat, homeScore: Int32, awayScore: Int32)
    requires BoardInvariant(matches, next) && k < |matches|
    requires homeScore >= 0 && awayScore >= 0
    ensures var old_ := matches[k];
            BoardInvariant(matches[..k] + matches[k + 1..]
                           + [Match(old_.homeTeamName, old_.awayTeamName, homeScore, awayScore, old_.startTime)], next)
  {
    var m := matches[k];
    var rest := matches[..k] + matches[k + 1..];
    var u := Match(m.homeTeamName, m.awayTeamName, homeScore, awayScore, m.startTime);
    var r := rest + [u];
    assert forall q :: 0 <= q < |rest| ==> rest[q] == matches[if q < k then q else q + 1];
    RemoveKeepsInvariant(matches, next, k);
    DistinctStartsWithout(matches, k);
    forall i, j | 0 <= i < |r| && 0 <= j < |r| && i != j
      ensures ShareNoTeam(r[i], r[j])
    {
      if j == |rest| {
        var i' := if i < k then i else i + 1;
        assert ShareNoTeam(matches[i'], matches[k]);
      } else if i == |rest| {
        var j' := if j < k then j else j + 1;
        assert ShareNoTeam(matches[k], matches[j']);
      }
    }
  }

  /** On a board that keeps the invariant, at most one match is between
      any given pair of exact names. */
  lemma AtMostOneMatchBetween(matches: seq<Match>, homeTeam: string, awayTeam: string, i: nat, j: nat)
    requires NoTeamTwice(matches)
    requires i < |matches| && j < |matches|
    requires IsBetween(matches[i], homeTeam, awayTeam) && IsBetween(matches[j], homeTeam, awayTeam)
    ensures i == j
  {
    if i != j {
      assert EqualsIgnoreCase(matches[j].homeTeamName, matches[i].homeTeamName);
    }
  }
}
