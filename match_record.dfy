/** The Match record: one ongoing match as an immutable value. */
module MatchRecord {
  import opened Failures
  import opened JavaText

  /** A Java int. */
  type Int32 = x: int | -0x8000_0000 <= x < 0x8000_0000

  /** Home and away team names, their scores, and the start marker the
      board stamps on the match when it starts it (a System.nanoTime()
      reading in the source). Being a datatype, a Match is compared
      component by component and cannot be changed once built. */
  datatype Match = Match(homeTeamName: string, awayTeamName: string,
                         homeScore: Int32, awayScore: Int32, startTime: int)
  {
    /** "<home> <homeScore> - <away> <awayScore>"; the start marker is not
        shown. RenderingRoundTrip shows that the text loses no score. */
    function ToString(): string
    {
      homeTeamName + " " + IntToString(homeScore) + " - " + awayTeamName + " " + IntToString(awayScore)
    }
  }

  /** Splits a string at its first space. */
  function SplitAtSpace(s: string): (r: Option<(string, string)>)
    ensures r.Some? ==> ' ' !in r.value.0 && s == r.value.0 + " " + r.value.1
    ensures r.None? ==> ' ' !in s
  {
    if s == [] then None
    else if s[0] == ' ' then Some(([], s[1..]))
    else match SplitAtSpace(s[1..])
      case None => None
      case Some((x, y)) => Some(([s[0]] + x, y))
  }

  lemma {:induction false} SplitAtFirstSpace(x: string, y: string)
    requires ' ' !in x
    ensures SplitAtSpace(x + " " + y) == Some((x, y))
  {
    if x != [] {
      assert (x + " " + y)[1..] == x[1..] + " " + y;
      assert x[0] != ' ' by { assert x[0] in x; }
      SplitAtFirstSpace(x[1..], y);
      assert [x[0]] + x[1..] == x;
    }
  }

  /** Recovers the two scores from the text of a match whose team names are
      known; None when the text is not a rendering of such a match. */
  function ParseRendering(s: string, home: string, away: string): Option<(int, int)>
  {
    var lead := home + " ";
    if |s| < |lead| || s[..|lead|] != lead then None
    else match SplitAtSpace(s[|lead|..])
      case None => None
      case Some((homeScore, rest)) =>
        var middle := "- " + away + " ";
        if |rest| < |middle| || rest[..|middle|] != middle then None
        else
          var awayScore := rest[|middle|..];
          if IsDecimal(homeScore) && IsDecimal(awayScore)
          then Some((ParseInt(homeScore), ParseInt(awayScore)))
          else None
  }

  lemma DecimalHasNoSpace(s: string)
    requires IsDecimal(s)
    ensures ' ' !in s
  {
  }

  /** The rendering of a match gives back its scores: the text the tests
      compare determines the scores shown. */
  lemma RenderingRoundTrip(m: Match)
    ensures ParseRendering(m.ToString(), m.homeTeamName, m.awayTeamName)
            == Some((m.homeScore as int, m.awayScore as int))
  {
    var h, a := IntToString(m.homeScore), IntToString(m.awayScore);
    var lead := m.homeTeamName + " ";
    var middle := "- " + m.awayTeamName + " ";
    var s := m.ToString();
    assert s == lead + (h + " " + (middle + a));
    assert s[..|lead|] == lead;
    assert s[|lead|..] == h + " " + (middle + a);
    DecimalHasNoSpace(h);
    SplitAtFirstSpace(h, middle + a);
    assert (middle + a)[..|middle|] == middle;
    assert (middle + a)[|middle|..] == a;
    IntToStringRoundTrip(m.homeScore);
    IntToStringRoundTrip(m.awayScore);
  }

  /** Two matches between the same teams that render alike have the same score. */
  lemma RenderingDeterminesScore(m: Match, n: Match)
    requires m.homeTeamName == n.homeTeamName && m.awayTeamName == n.awayTeamName
    requires m.ToString() == n.ToString()
    ensures m.homeScore == n.homeScore && m.awayScore == n.awayScore
  {
    RenderingRoundTrip(m);
    RenderingRoundTrip(n);
  }

  /** A match the board has just started reads "<home> 0 - <away> 0". */
  lemma FreshMatchRendering(home: string, away: string, startTime: int)
    ensures Match(home, away, 0, 0, startTime).ToString() == home + " 0 - " + away + " 0"
  {
  }
}
