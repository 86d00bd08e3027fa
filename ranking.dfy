/** The order of the score board summary: most goals first, and among
    matches with as many goals the one started last first. */
module Ranking {
  import opened MatchRecord

  /** Goals scored in the match. */
  function Total(m: Match): int
  {
    m.homeScore as int + m.awayScore as int
  }

  /** Java int arithmetic: the result of an addition wraps modulo 2^32. */
  function WrapInt32(x: int): (r: Int32)
    ensures (x - r) % 0x1_0000_0000 == 0
    ensures -0x8000_0000 <= x < 0x8000_0000 ==> r == x
  {
    (x + 0x8000_0000) % 0x1_0000_0000 - 0x8000_0000
  }

  /** The sum of the scores fits in a Java int. */
  predicate FitsInt32(m: Match)
  {
    -0x8000_0000 <= Total(m) < 0x8000_0000
  }

  /** The key the summary comparator computes, as written: the int sum
      homeScore() + awayScore(), which wraps. */
  function TotalAsWritten(m: Match): (r: Int32)
    ensures (Total(m) - r) % 0x1_0000_0000 == 0
    ensures FitsInt32(m) ==> r == Total(m)
  {
    WrapInt32(Total(m))
  }

  /** The comparator as written: x is listed before y. As long as neither
      sum of scores leaves the int range, it is the intended order. */
  predicate PrecedesAsWritten(x: Match, y: Match): (r: bool)
    ensures FitsInt32(x) && FitsInt32(y) ==> (r <==> Precedes(x, y))
  {
    TotalAsWritten(x) > TotalAsWritten(y) || (TotalAsWritten(x) == TotalAsWritten(y) && x.startTime > y.startTime)
  }

  /** With the wrapping key, a match whose score is 2147483647 - 1 is listed
      after a goalless match started later, as if it had the fewest goals. */
  lemma WrappedTotalMisranks()
    ensures var big := Match("HomeTeam", "AwayTeam", 0x7fff_ffff, 1, 0);
            var goalless := Match("HomeTeam1", "AwayTeam1", 0, 0, 1);
            Total(big) > Total(goalless) && PrecedesAsWritten(goalless, big) && !PrecedesAsWritten(big, goalless)
  {
    var big := Match("HomeTeam", "AwayTeam", 0x7fff_ffff, 1, 0);
    assert Total(big) == 0x8000_0000;
    assert WrapInt32(0x8000_0000) == -0x8000_0000;
  }

  /** The intended order: x is listed before y. */
  predicate Precedes(x: Match, y: Match)
  {
    Total(x) > Total(y) || (Total(x) == Total(y) && x.startTime > y.startTime)
  }

  /** Listed in summary order, ties allowed: no match precedes one listed before it. */
  predicate Ranked(s: seq<Match>)
  {
    forall i, j :: 0 <= i < j < |s| ==> !Precedes(s[j], s[i])
  }

  /** Listed in summary order, with no ties. */
  predicate StrictlyRanked(s: seq<Match>)
  {
    forall i, j :: 0 <= i < j < |s| ==> Precedes(s[i], s[j])
  }

  /** No two matches carry the same start marker. */
  predicate DistinctStarts(s: seq<Match>)
  {
    forall i, j :: 0 <= i < j < |s| ==> s[i].startTime != s[j].startTime
  }

  /** A match that ranks behind none of a ranked list may head it. */
  lemma RankedCons(y: Match, t: seq<Match>)
    requires Ranked(t)
    requires forall z :: z in multiset(t) ==> !Precedes(z, y)
    ensures Ranked([y] + t)
  {
    forall j | 0 <= j < |t| ensures !Precedes(t[j], y) {
      assert t[j] in multiset(t);
    }
  }

  /** Puts x into a ranked list, after every match it does not precede. */
  function InsertByRank(x: Match, s: seq<Match>): (r: seq<Match>)
    requires Ranked(s)
    ensures Ranked(r)
    ensures multiset(r) == multiset(s) + multiset{x}
  {
    if s == [] then [x]
    else if Precedes(x, s[0]) then
      assert forall z :: z in multiset(s) ==> !Precedes(z, x) by {
        forall z | z in multiset(s) ensures !Precedes(z, x) {
          var j :| 0 <= j < |s| && s[j] == z;
          if j > 0 { assert !Precedes(s[j], s[0]); }
        }
      }
      RankedCons(x, s);
      [x] + s
    else
      var rest := InsertByRank(x, s[1..]);
      assert s == [s[0]] + s[1..];
      assert forall z :: z in multiset(rest) ==> !Precedes(z, s[0]) by {
        forall z | z in multiset(rest) ensures !Precedes(z, s[0]) {
          if z != x {
            assert z in multiset(s[1..]);
            var j :| 0 <= j < |s[1..]| && s[1..][j] == z;
            assert s[j + 1] == z;
          }
        }
      }
      RankedCons(s[0], rest);
      [s[0]] + rest
  }

  /** Insertion sort into summary order; it keeps matches that tie in list order. */
  function SortByRank(matches: seq<Match>): (r: seq<Match>)
    ensures Ranked(r)
    ensures multiset(r) == multiset(matches)
  {
    if matches == [] then []
    else
      var n := |matches| - 1;
      assert matches == matches[..n] + [matches[n]];
      InsertByRank(matches[n], SortByRank(matches[..n]))
  }

  /** Dropping one match keeps the start markers distinct. */
  lemma DistinctStartsWithout(s: seq<Match>, p: nat)
    requires p < |s| && DistinctStarts(s)
    ensures DistinctStarts(s[..p] + s[p + 1..])
    ensures var t := s[..p] + s[p + 1..]; forall q :: 0 <= q < |t| ==> t[q].startTime != s[p].startTime
  {
    var t := s[..p] + s[p + 1..];
    assert forall q :: 0 <= q < |t| ==> t[q] == s[if q < p then q else q + 1];
  }

  lemma MultisetWithout<T>(s: seq<T>, p: nat)
    requires p < |s|
    ensures multiset(s[..p] + s[p + 1..]) == multiset(s) - multiset{s[p]}
  {
    assert s == s[..p] + [s[p]] + s[p + 1..];
  }

  lemma MultisetTail<T>(s: seq<T>)
    requires s != []
    ensures multiset(s[1..]) == multiset(s) - multiset{s[0]}
  {
    assert s == [s[0]] + s[1..];
  }

  /** Rearranging the matches keeps their start markers distinct. */
  lemma {:induction false} DistinctStartsPermutation(a: seq<Match>, b: seq<Match>)
    requires multiset(a) == multiset(b) && DistinctStarts(a)
    ensures DistinctStarts(b)
    decreases |b|
  {
    if b != [] {
      assert b[0] in multiset(a);
      var p :| 0 <= p < |a| && a[p] == b[0];
      var rest := a[..p] + a[p + 1..];
      MultisetWithout(a, p);
      MultisetTail(b);
      DistinctStartsWithout(a, p);
      DistinctStartsPermutation(rest, b[1..]);
      forall j | 0 < j < |b| ensures b[0].startTime != b[j].startTime {
        assert b[1..][j - 1] in multiset(rest);
        var q :| 0 <= q < |rest| && rest[q] == b[j];
      }
    }
  }

  /** Two strictly ranked lists of the same matches start with the same match. */
  lemma SameFirst(a: seq<Match>, b: seq<Match>)
    requires StrictlyRanked(a) && StrictlyRanked(b) && multiset(a) == multiset(b)
    requires a != [] && b != []
    ensures a[0] == b[0]
  {
    assert a[0] in multiset(b) && b[0] in multiset(a);
    var j :| 0 <= j < |b| && b[j] == a[0];
    var i :| 0 <= i < |a| && a[i] == b[0];
    if i != 0 && j != 0 {
      assert false;
    }
  }

  /** There is only one way to list a collection of matches in strict summary
      order, so any sort that yields the order returns this same list. */
  lemma {:induction false} StrictlyRankedIsUnique(a: seq<Match>, b: seq<Match>)
    requires StrictlyRanked(a) && StrictlyRanked(b) && multiset(a) == multiset(b)
    ensures a == b
    decreases |a|
  {
    assert |a| == |multiset(a)| == |b|;
    if a != [] {
      SameFirst(a, b);
      MultisetTail(a);
      MultisetTail(b);
      StrictlyRankedIsUnique(a[1..], b[1..]);
      assert a == [a[0]] + a[1..];
      assert b == [b[0]] + b[1..];
    }
  }

  /** With distinct start markers the insertion sort leaves no ties, and it
      is the only list of those matches in summary order. */
  lemma SortByRankIsTheSummaryOrder(matches: seq<Match>, s: seq<Match>)
    requires DistinctStarts(matches)
    requires StrictlyRanked(s) && multiset(s) == multiset(matches)
    ensures StrictlyRanked(SortByRank(matches))
    ensures s == SortByRank(matches)
  {
    var r := SortByRank(matches);
    DistinctStartsPermutation(matches, r);
    StrictlyRankedIsUnique(r, s);
  }
}
